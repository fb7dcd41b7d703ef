/** Groups and destinations: what every reachable group stack satisfies, and why a skipped group leaves no trace. */
module RtfGroups {
  import opened Base
  import opened RtfLexer
  import opened RtfText
  import opened RtfRuns
  import Utf8

  /** Skipping and having a destination are the same thing, groups inherit it, and the document itself has none. */
  ghost predicate Good(stack: Stack) {
    && stack[0].dest == Document
    && (forall i | 0 <= i < |stack| :: stack[i].skip <==> stack[i].dest != Document)
    && (forall i, j | 0 <= i < j < |stack| :: stack[i].dest != Document ==> stack[j].dest != Document)
  }

  lemma GoodTop(stack: Stack, g: Group)
    requires Good(stack)
    requires g.skip <==> g.dest != Document
    requires stack[|stack| - 1].dest != Document ==> g.dest != Document
    requires |stack| == 1 ==> g.dest == Document
    ensures Good(stack[|stack| - 1 := g])
  {
  }

  lemma WordKeepsGood(c: Codec, s: Sem, word: Word, param: int, hasParam: bool)
    requires Good(s.stack)
    ensures Good(ControlWord(c, s, word, param, hasParam).stack)
  {
    hide FlushPending, Emit, InInfo, UnicodeWord;
    var top := s.Top();
    match word
    case Deff => GoodTop(s.stack, top.(font := param));
    case Font => GoodTop(s.stack, top.(font := param));
    case Plain => GoodTop(s.stack, top.(font := s.defaultFont));
    case Uc => GoodTop(s.stack, top.(uc := param));
    case Hidden => GoodTop(s.stack, top.(hidden := !hasParam || param != 0));
    case InfoMember(name) =>
      GoodTop(s.stack, top.(infoField := ""));
      GoodTop(s.stack, top.(infoField := name));
    case Destination(name) =>
      if |s.stack| > 1 {
        var font := if name == "fonttbl" then -1 else top.font;
        GoodTop(s.stack, top.(skip := true, dest := Ignored(name), font := font));
      }
    case Info =>
      if |s.stack| > 1 {
        GoodTop(s.stack, top.(skip := true, dest := InfoBlock));
      }
    case _ =>
  }

  /** Every event keeps the group stack good. */
  lemma ApplyKeepsGood(c: Codec, s: Sem, e: Event)
    requires Good(s.stack)
    ensures Good(Apply(c, s, e).stack)
  {
    hide FlushPending, Emit, ControlWord, Capture;
    match e
    case Control(word, param, hasParam) => WordKeepsGood(c, s, word, param, hasParam);
    case Symbol(_) =>
      if |s.stack| > 1 {
        GoodTop(s.stack, s.Top().(skip := true, dest := Ignored("*")));
      }
    case _ =>
  }

  /** The group stack is good after any event sequence, hence at every point of every document. */
  lemma {:induction false} AlwaysGood(c: Codec, s: Sem, events: seq<Event>)
    requires Good(s.stack)
    ensures Good(ApplyAll(c, s, events).stack)
    decreases |events|
  {
    if events != [] {
      ApplyKeepsGood(c, s, events[0]);
      AlwaysGood(c, Apply(c, s, events[0]), events[1..]);
    }
  }

  /** The search `inInfo` makes through the whole stack always ends at its top. */
  lemma {:induction false} InInfoIsTop(stack: Stack)
    requires Good(stack)
    ensures InInfo(stack) == (stack[|stack| - 1].dest == InfoBlock)
    decreases |stack|
  {
    var n := |stack| - 1;
    if stack[n].dest == Document {
      assert forall i | 0 <= i < n :: stack[..n][i].dest == Document;
      AllDocument(stack[..n]);
    }
  }

  lemma {:induction false} AllDocument(groups: seq<Group>)
    requires forall i | 0 <= i < |groups| :: groups[i].dest == Document
    ensures !InInfo(groups)
    decreases |groups|
  {
    if groups != [] {
      AllDocument(groups[..|groups| - 1]);
    }
  }

  // ---- groups and their formatting ------------------------------------------------------------------------

  /** Nothing but the top of the stack differs. */
  ghost predicate TopOnly(a: Stack, b: Stack) {
    |a| == |b| && a[..|a| - 1] == b[..|b| - 1]
  }

  lemma WordTopOnly(c: Codec, s: Sem, word: Word, param: int, hasParam: bool)
    ensures TopOnly(s.stack, ControlWord(c, s, word, param, hasParam).stack)
  {
    hide FlushPending, Emit, InInfo, UnicodeWord, EncodingForCodePage;
  }

  lemma SymbolTopOnly(c: Codec, s: Sem, b: byte)
    ensures TopOnly(s.stack, ControlSymbol(c, s, b).stack)
  {
    hide FlushPending, Emit, CountsAsFallback, Utf8.Encode;
  }

  /** An opened group starts with the formatting of the one around it, other events touch the innermost group alone. */
  lemma EventScope(c: Codec, s: Sem, e: Event)
    ensures var stack := Apply(c, s, e).stack;
      if e.Open? then stack == s.stack + [s.Top()]
      else if e.Close? then stack == if |s.stack| > 1 then s.stack[..|s.stack| - 1] else s.stack
      else TopOnly(s.stack, stack)
    ensures e.Open? || (e.Close? && |s.stack| > 1) ==> Apply(c, s, e).skipChars == 0
  {
    hide FlushPending, Emit, ControlWord, ControlSymbol, Capture;
    match e
    case Control(word, param, hasParam) => WordTopOnly(c, s, word, param, hasParam);
    case Symbol(b) => SymbolTopOnly(c, s, b);
    case _ =>
  }

  /** The outermost `n` groups are the same. */
  ghost predicate SameOuter(a: Stack, b: Stack, n: nat) {
    n <= |a| && n <= |b| && a[..n] == b[..n]
  }

  lemma SameOuterThrough(a: Stack, b: Stack, c: Stack, n: nat)
    requires SameOuter(a, b, n) && SameOuter(b, c, n)
    ensures SameOuter(a, c, n)
  {
  }

  lemma OuterStays(a: Stack, b: Stack, e: Event, n: nat, top: Group)
    requires n < |a| && (e.Close? ==> n + 1 < |a|)
    requires if e.Open? then b == a + [top] else if e.Close? then b == a[..|a| - 1] else TopOnly(a, b)
    ensures |b| == (if e.Open? then |a| + 1 else if e.Close? then |a| - 1 else |a|) && SameOuter(a, b, n)
  {
    if !e.Open? && !e.Close? {
      assert b[..n] == b[..|b| - 1][..n] && a[..n] == a[..|a| - 1][..n];
    }
  }

  lemma EventOuter(c: Codec, s: Sem, e: Event, n: nat)
    requires n < |s.stack| && (e.Close? ==> n + 1 < |s.stack|)
    ensures var stack := Apply(c, s, e).stack;
      && |stack| == (if e.Open? then |s.stack| + 1 else if e.Close? then |s.stack| - 1 else |s.stack|)
      && SameOuter(s.stack, stack, n)
  {
    hide Apply, SameOuter, TopOnly;
    EventScope(c, s, e);
    OuterStays(s.stack, Apply(c, s, e).stack, e, n, s.Top());
  }

  function Deeper(e: Event, depth: nat): int {
    if e.Open? then depth + 1 else if e.Close? then depth - 1 else depth
  }

  lemma FirstOfBalanced(c: Codec, s: Sem, events: seq<Event>, depth: nat)
    requires Balanced(events, depth)
    ensures events == [] ==> depth == 0 && ApplyAll(c, s, events) == s && SameOuter(s.stack, s.stack, |s.stack| - 1)
    ensures events != [] ==>
              && Deeper(events[0], depth) >= 0 && Balanced(events[1..], Deeper(events[0], depth))
              && ApplyAll(c, s, events) == ApplyAll(c, Apply(c, s, events[0]), events[1..])
  {
    hide Apply;
  }

  lemma {:induction false} BalancedScope(c: Codec, s: Sem, events: seq<Event>, depth: nat)
    requires Balanced(events, depth) && |s.stack| > depth
    ensures var stack, n := ApplyAll(c, s, events).stack, |s.stack| - depth; |stack| == n && SameOuter(s.stack, stack, n - 1)
    decreases |events|
  {
    FirstOfBalanced(c, s, events, depth);
    if events != [] {
      var e, n := events[0], |s.stack| - depth;
      var s1, next := Apply(c, s, e), Deeper(e, depth);
      hide *;
      EventOuter(c, s, e, n - 1);
      BalancedScope(c, s1, events[1..], next);
      SameOuterThrough(s.stack, s1.stack, ApplyAll(c, s, events).stack, n - 1);
    }
  }

  /** When a group is closed the formatting, font, destination and visibility around it are what they were, whatever was in it. */
  lemma GroupScope(c: Codec, s: Sem, events: seq<Event>)
    requires Balanced(events, 0)
    ensures ApplyAll(c, s, [Open] + events + [Close]).stack == s.stack
  {
    var inner := Apply(c, s, Open);
    var last := ApplyAll(c, inner, events);
    EventScope(c, s, Open);
    BalancedScope(c, inner, events, 0);
    EventScope(c, last, Close);
    ApplyAllConcat(c, s, [Open] + events, [Close]);
    ApplyAllConcat(c, s, [Open], events);
    ApplyOne(c, s, Open);
    ApplyOne(c, last, Close);
    hide Apply, ApplyAll;
    assert last.stack[..|s.stack|] == s.stack;
  }

  /** Text and `\info` fields did not both grow between `s` and `r`. */
  ghost predicate Apart(s: Sem, r: Sem) {
    r.out == s.out || r.info == s.info
  }

  /** A field is captured only where text is skipped, so no run of writes reaches both. */
  lemma WritesApart(c: Codec, s: Sem, b: seq<byte>)
    requires Good(s.stack)
    ensures Apart(s, FlushPending(c, s)) && Apart(s, Flush(c, s)) && Apart(s, Emit(c, s, b))
  {
    InInfoIsTop(s.stack);
    hide InInfo, DecodePage;
  }

  /** In a skipped group writes leave the text alone, elsewhere the fields. */
  ghost predicate OneSide(s: Sem, r: Sem) {
    r.stack == s.stack && if s.Top().skip then r.out == s.out else r.info == s.info
  }

  lemma WriteOneSide(s: Sem, b: seq<byte>)
    requires Good(s.stack)
    ensures OneSide(s, Write(s, b)) && OneSide(s, FlushHighRune(s))
  {
    InInfoIsTop(s.stack);
    hide InInfo;
  }

  lemma FlushOneSide(c: Codec, s: Sem)
    requires Good(s.stack)
    ensures OneSide(s, FlushPending(c, s))
  {
    InInfoIsTop(s.stack);
    hide InInfo, DecodePage;
  }

  lemma UnicodeApart(c: Codec, s: Sem, value: int)
    requires Good(s.stack)
    ensures Apart(s, UnicodeWord(c, s, value))
  {
    hide Good, Write, FlushPending, FlushHighRune, CodeUnit, RuneString, Combine, Utf8.Encode;
    FlushOneSide(c, s);
    var f, r := FlushPending(c, s), CodeUnit(value);
    WriteOneSide(f.(highRune := 0), Utf8.Encode(Utf8.REPLACEMENT));
    WriteOneSide(f, []);
    WriteOneSide(FlushHighRune(f), RuneString(r));
    if IsLowSurrogate(r) && IsHighSurrogate(f.highRune) {
      WriteOneSide(f.(highRune := 0), Utf8.Encode(Combine(f.highRune, r)));
    }
  }

  lemma WordApart(c: Codec, s: Sem, word: Word, param: int, hasParam: bool)
    requires Good(s.stack)
    ensures Apart(s, ControlWord(c, s, word, param, hasParam))
  {
    hide InInfo, FlushPending, Emit, UnicodeWord, EncodingForCodePage;
    WritesApart(c, s, []);
    match word
    case Unicode => UnicodeApart(c, s, param);
    case Character(r) => WritesApart(c, s, Utf8.Encode(r));
    case _ =>
  }

  lemma SymbolApart(c: Codec, s: Sem, b: byte)
    requires Good(s.stack)
    ensures Apart(s, ControlSymbol(c, s, b))
  {
    hide FlushPending, Emit, CountsAsFallback, Good, Utf8.Encode;
    WritesApart(c, s, [b]);
    WritesApart(c, s, Utf8.Encode(0xA0));
    WritesApart(c, s, ['-' as int]);
    WritesApart(c, s, [10]);
  }

  /** No event of any document adds to the text and to an `\info` field at once. */
  lemma TextOrField(c: Codec, s: Sem, e: Event)
    requires Good(s.stack)
    ensures Apart(s, Apply(c, s, e))
  {
    hide FlushPending, Emit, ControlWord, ControlSymbol, Good, Capture;
    match e
    case Control(word, param, hasParam) => WordApart(c, s, word, param, hasParam);
    case Symbol(b) => SymbolApart(c, s, b);
    case Text(b) => WritesApart(c, s, [b]);
    case _ => WritesApart(c, s, []);
  }

  // ---- skipped groups ------------------------------------------------------------------------------------

  /** An event that makes the group it stands in a skipped destination; `\info` does too. */
  predicate SkipsGroup(e: Event) {
    e == Symbol('*' as int) || (e.Control? && (e.word.Destination? || e.word.Info?))
  }

  /** Which of the two destinations that leave something behind a skipped group may contain. */
  datatype Allow = Allow(fontTables: bool, info: bool)

  /**
   * Everything but `\u` and the words that set document-wide encodings: no `\fcharset` where there may be font tables,
   * and no font table otherwise.
   */
  predicate IsLocal(e: Event, allow: Allow) {
    e.Control? ==>
      && e.word !in {Unicode, AnsiCpg, Deff}
      && (if allow.fontTables then !e.word.FCharset? else e.word != Destination("fonttbl"))
      && (e.word.Info? ==> allow.info)
  }

  predicate AllLocal(events: seq<Event>, allow: Allow) {
    forall e | e in events :: IsLocal(e, allow)
  }

  /** Every group opened in `events` is closed there, and no other; `depth` groups are open at the start. */
  predicate Balanced(events: seq<Event>, depth: nat)
    decreases |events|
  {
    if events == [] then depth == 0
    else if events[0].Open? then Balanced(events[1..], depth + 1)
    else if events[0].Close? then depth > 0 && Balanced(events[1..], depth - 1)
    else Balanced(events[1..], depth)
  }

  predicate IsSkipped(g: Group, allow: Allow) {
    && g.skip
    && (!allow.fontTables ==> g.dest != Ignored("fonttbl"))
    && (!allow.info ==> g.dest.Ignored?)
  }

  /** `s` is `t` but for the code-page bytes, and for the fields if `allow` has the `\info` block. */
  ghost predicate SameText(s: Sem, t: Sem, allow: Allow) {
    && s == t.(stack := s.stack, pending := s.pending, skipChars := s.skipChars, info := s.info, infoStarted := s.infoStarted)
    && (!allow.info ==> s.info == t.info && s.infoStarted == t.infoStarted)
  }

  /** `s` is inside a skipped group that was opened in `s0`, `depth` groups further in. */
  ghost predicate Inside(s0: Sem, s: Sem, depth: nat, allow: Allow) {
    && |s.stack| == |s0.stack| + 1 + depth
    && s.stack[..|s0.stack|] == s0.stack
    && (forall i | |s0.stack| <= i < |s.stack| :: IsSkipped(s.stack[i], allow))
    && s0.highRune == 0
    && SameText(s, s0, allow)
  }

  /** A write in a skipped group reaches a field at most, and no field outside the `\info` block. */
  lemma SilentWrite(s: Sem, b: seq<byte>)
    requires s.Top().skip
    ensures Write(s, b) == s.(info := Write(s, b).info)
    ensures s.Top().dest.Ignored? ==> Write(s, b) == s
  {
  }

  lemma SilentFlush(c: Codec, s: Sem)
    requires s.Top().skip
    ensures FlushPending(c, s) == s.(pending := [], info := FlushPending(c, s).info)
    ensures s.Top().dest.Ignored? ==> FlushPending(c, s) == s.(pending := [])
  {
    if s.pending != [] {
      var page := if s.Top().font in s.fonts then s.fonts[s.Top().font] else s.enc;
      SilentWrite(s.(pending := []), DecodePage(c, page, s.pending));
    }
  }

  lemma SilentEmit(c: Codec, s: Sem, b: seq<byte>)
    requires s.Top().skip && s.highRune == 0
    ensures Emit(c, s, b) == s.(pending := [], info := Emit(c, s, b).info)
    ensures s.Top().dest.Ignored? ==> Emit(c, s, b) == s.(pending := [])
  {
    SilentFlush(c, s);
    SilentWrite(FlushPending(c, s), b);
  }

  lemma InsideTop(s0: Sem, s: Sem, depth: nat, allow: Allow, g: Group)
    requires Inside(s0, s, depth, allow) && IsSkipped(g, allow)
    ensures Inside(s0, s.SetTop(g), depth, allow)
  {
  }

  /** Flushing, writing and counting keep the state inside. */
  lemma InsideFlush(c: Codec, s0: Sem, s: Sem, depth: nat, allow: Allow, b: seq<byte>)
    requires Inside(s0, s, depth, allow)
    ensures Inside(s0, FlushPending(c, s), depth, allow) && Inside(s0, Emit(c, s, b), depth, allow)
    ensures FlushPending(c, s).highRune == 0 && FlushPending(c, s).Top() == s.Top()
  {
    SilentFlush(c, s);
    SilentEmit(c, s, b);
    hide FlushPending, Emit;
  }

  lemma InsideWord(c: Codec, s0: Sem, s: Sem, depth: nat, allow: Allow, word: Word, param: int, hasParam: bool)
    requires Inside(s0, s, depth, allow) && IsLocal(Control(word, param, hasParam), allow)
    ensures Inside(s0, ControlWord(c, s, word, param, hasParam), depth, allow)
  {
    hide FlushPending, Emit, Write, InInfo, Inside;
    assert IsSkipped(s.Top(), allow) && |s.stack| > 1 by { InsideMeans(s0, s, depth, allow); }
    InsideFlush(c, s0, s, depth, allow, []);
    var f := FlushPending(c, s);
    var top := s.Top();
    match word
    case Font =>
      InsideTop(s0, f, depth, allow, top.(font := param));
    case Plain =>
      assert f.defaultFont == s.defaultFont by { SilentFlush(c, s); }
      InsideTop(s0, f, depth, allow, top.(font := s.defaultFont));
    case Uc =>
      InsideTop(s0, s, depth, allow, top.(uc := param));
      InsideSkip(s0, s.SetTop(top.(uc := param)), depth, allow, 0);
    case Hidden => InsideTop(s0, f, depth, allow, top.(hidden := !hasParam || param != 0));
    case Bin => InsideSkip(s0, s, depth, allow, s.skipChars - 1);
    case Character(r) => InsideFlush(c, s0, s, depth, allow, Utf8.Encode(r));
    case InfoMember(name) => if InInfo(s.stack) { InsideField(s0, s, depth, allow, name); }
    case Destination(name) =>
      InsideTop(s0, f, depth, allow, top.(dest := Ignored(name), font := if name == "fonttbl" then -1 else top.font));
    case Info => InsideTop(s0, f, depth, allow, top.(dest := InfoBlock));
    case _ =>
  }

  lemma InsideMeans(s0: Sem, s: Sem, depth: nat, allow: Allow)
    requires Inside(s0, s, depth, allow)
    ensures IsSkipped(s.Top(), allow) && |s.stack| > 1
  {
  }

  lemma InsideSkip(s0: Sem, s: Sem, depth: nat, allow: Allow, skipChars: int)
    requires Inside(s0, s, depth, allow)
    ensures Inside(s0, s.(skipChars := skipChars), depth, allow)
  {
  }

  /** A field starts only inside an `\info` block. */
  lemma InsideField(s0: Sem, s: Sem, depth: nat, allow: Allow, name: string)
    requires Inside(s0, s, depth, allow) && InInfo(s.stack)
    ensures Inside(s0, StartInfoField(s, name), depth, allow)
  {
  }

  lemma InsideSymbol(c: Codec, s0: Sem, s: Sem, depth: nat, allow: Allow, b: byte)
    requires Inside(s0, s, depth, allow)
    ensures Inside(s0, ControlSymbol(c, s, b), depth, allow)
  {
    hide FlushPending, Emit, Write, Inside, CountsAsFallback, Utf8.Encode;
    assert IsSkipped(s.Top(), allow) && |s.stack| > 1 by { InsideMeans(s0, s, depth, allow); }
    InsideSkip(s0, s, depth, allow, s.skipChars - 1);
    InsideFlush(c, s0, s, depth, allow, [b]);
    InsideFlush(c, s0, s, depth, allow, Utf8.Encode(0xA0));
    InsideFlush(c, s0, s, depth, allow, ['-' as int]);
    InsideFlush(c, s0, s, depth, allow, [10]);
    InsideTop(s0, FlushPending(c, s), depth, allow, s.Top().(dest := Ignored("*")));
  }

  lemma InsideOpen(s0: Sem, s: Sem, depth: nat, allow: Allow)
    requires Inside(s0, s, depth, allow)
    ensures Inside(s0, Enter(s), depth + 1, allow)
    ensures depth > 0 ==> Inside(s0, Leave(s), depth - 1, allow)
  {
  }

  lemma InsideBytes(s0: Sem, s: Sem, depth: nat, allow: Allow, pending: seq<byte>)
    requires Inside(s0, s, depth, allow)
    ensures Inside(s0, s.(pending := pending), depth, allow)
  {
  }

  /** One local event inside a skipped group. */
  lemma InsideStep(c: Codec, s0: Sem, s: Sem, depth: nat, allow: Allow, e: Event)
    requires Inside(s0, s, depth, allow) && IsLocal(e, allow)
    requires e.Close? ==> depth > 0
    ensures Inside(s0, Apply(c, s, e), if e.Open? then depth + 1 else if e.Close? then depth - 1 else depth, allow)
  {
    hide FlushPending, Emit, ControlWord, ControlSymbol, Write, Inside, Enter, Leave, Capture;
    InsideSkip(s0, s, depth, allow, s.skipChars - 1);
    match e
    case Open =>
      InsideFlush(c, s0, s, depth, allow, []);
      InsideOpen(s0, FlushPending(c, s), depth, allow);
    case Close =>
      InsideFlush(c, s0, s, depth, allow, []);
      InsideOpen(s0, FlushPending(c, s), depth, allow);
    case Control(word, param, hasParam) => InsideWord(c, s0, s, depth, allow, word, param, hasParam);
    case Symbol(b) => InsideSymbol(c, s0, s, depth, allow, b);
    case Text(b) => InsideFlush(c, s0, s, depth, allow, [b]);
    case High(b) => InsideBytes(s0, s, depth, allow, s.pending + [b]);
    case Hex(b) => InsideBytes(s0, s, depth, allow, s.pending + [b]);
  }

  /** The payload of a skipped group, up to the group's own closing brace. */
  lemma {:induction false} InsidePayload(c: Codec, s0: Sem, s: Sem, depth: nat, allow: Allow, payload: seq<Event>)
    requires Inside(s0, s, depth, allow)
    requires Balanced(payload, depth) && AllLocal(payload, allow)
    ensures Inside(s0, ApplyAll(c, s, payload), 0, allow)
    decreases |payload|
  {
    hide Apply, Inside, IsLocal;
    if payload != [] {
      var e := payload[0];
      InsideStep(c, s0, s, depth, allow, e);
      var depth1 := if e.Open? then depth + 1 else if e.Close? then depth - 1 else depth;
      InsidePayload(c, s0, Apply(c, s, e), depth1, allow, payload[1..]);
    }
  }

  /** A group as events: its opening, what makes it a skipped destination, its payload and its end. */
  function GroupEvents(head: Event, payload: seq<Event>): seq<Event> {
    [Open, head] + payload + [Close]
  }

  /**
   * A group that starts by becoming a skipped destination and holds any balanced local payload leaves text, stack,
   * fonts and encodings alone: it only ends the run of code-page bytes and the fallback before it. If there is no
   * `\info` block in it either, the captured fields stay what they were too.
   */
  lemma SkippedGroup(c: Codec, s: Sem, allow: Allow, head: Event, payload: seq<Event>)
    requires s.highRune == 0
    requires SkipsGroup(head) && IsLocal(head, allow)
    requires Balanced(payload, 0) && AllLocal(payload, allow)
    ensures var r, f := ApplyAll(c, s, GroupEvents(head, payload)), FlushPending(c, s);
      && r == f.(skipChars := 0, info := r.info, infoStarted := r.infoStarted)
      && (!allow.info ==> r == f.(skipChars := 0))
  {
    var s0 := FlushPending(c, s);
    assert s0.highRune == 0 by { FlushKeepsSurrogate(c, s); }
    var entered := Apply(c, s, Open);
    var skipped := Apply(c, entered, head);
    assert Inside(s0, skipped, 0, allow) by {
      HeadStep(c, s0, allow, head);
    }
    hide Apply, FlushPending, ControlWord, Inside, SkipsGroup, IsLocal;
    InsidePayload(c, s0, skipped, 0, allow, payload);
    var last := ApplyAll(c, skipped, payload);
    CloseStep(c, s0, last, allow);
    GroupInTurn(c, s, head, payload);
  }

  lemma GroupInTurn(c: Codec, s: Sem, head: Event, payload: seq<Event>)
    ensures ApplyAll(c, s, GroupEvents(head, payload))
         == Apply(c, ApplyAll(c, Apply(c, Apply(c, s, Open), head), payload), Close)
  {
    hide Apply;
    var entered := Apply(c, s, Open);
    var skipped := Apply(c, entered, head);
    ApplyAllConcat(c, s, [Open, head] + payload, [Close]);
    ApplyAllConcat(c, s, [Open, head], payload);
    ApplyAllConcat(c, s, [Open], [head]);
    assert [Open] + [head] == [Open, head];
    ApplyOne(c, s, Open);
    ApplyOne(c, entered, head);
    ApplyOne(c, ApplyAll(c, skipped, payload), Close);
  }

  lemma FlushKeepsSurrogate(c: Codec, s: Sem)
    ensures FlushPending(c, s).highRune == s.highRune
  {
  }

  lemma HeadStep(c: Codec, s0: Sem, allow: Allow, head: Event)
    requires s0.highRune == 0 && s0.pending == [] && SkipsGroup(head) && IsLocal(head, allow)
    ensures Inside(s0, Apply(c, Enter(s0), head), 0, allow)
  {
    var s := Enter(s0);
    assert FlushPending(c, s) == s;
  }

  lemma CloseStep(c: Codec, s0: Sem, s: Sem, allow: Allow)
    requires Inside(s0, s, 0, allow) && s0.pending == []
    ensures var r := Apply(c, s, Close);
      && r == s0.(skipChars := 0, info := r.info, infoStarted := r.infoStarted)
      && (!allow.info ==> r == s0.(skipChars := 0))
  {
    SilentFlush(c, s);
    hide FlushPending;
    assert s.stack[..|s.stack| - 1] == s0.stack;
  }

  // ---- the same on bytes ---------------------------------------------------------------------------------

  /** The events `bytes` spell when the automaton starts in `lex`, and where it ends. */
  function Tokens(lex: Lex, bytes: seq<byte>): Lexed
    decreases |bytes|
  {
    if bytes == [] then Lexed(lex, [])
    else
      var l := Advance(lex, bytes[0]);
      var rest := Tokens(l.next, bytes[1..]);
      Lexed(rest.next, l.events + rest.events)
  }

  lemma {:induction false} RunTokens(c: Codec, s: Sem, lex: Lex, bytes: seq<byte>, rest: seq<byte>)
    ensures Run(c, s, lex, bytes + rest)
         == Run(c, ApplyAll(c, s, Tokens(lex, bytes).events), Tokens(lex, bytes).next, rest)
    decreases |bytes|
  {
    hide Advance, Apply;
    if bytes == [] {
      assert bytes + rest == rest;
    } else {
      var l := Advance(lex, bytes[0]);
      assert (bytes + rest)[1..] == bytes[1..] + rest;
      RunTokens(c, ApplyAll(c, s, l.events), l.next, bytes[1..], rest);
      ApplyAllConcat(c, s, l.events, Tokens(l.next, bytes[1..]).events);
    }
  }

  // ---- fields do not reach the text ----------------------------------------------------------------------

  /** The groups differ at most in the field they capture. */
  ghost predicate SameStack(a: Stack, b: Stack) {
    |a| == |b| && forall i | 0 <= i < |a| :: a[i].(infoField := "") == b[i].(infoField := "")
  }

  /** The states differ only in what concerns the fields: those captured, and bytes that are no text anyway. */
  ghost predicate Alike(s: Sem, t: Sem) {
    && t == s.(stack := t.stack, pending := t.pending, info := t.info, infoStarted := t.infoStarted)
    && SameStack(s.stack, t.stack)
    && (Visible(s) ==> t.pending == s.pending)
  }

  lemma AlikeTop(s: Sem, t: Sem)
    requires Alike(s, t)
    ensures t.Top() == s.Top().(infoField := t.Top().infoField) && Visible(t) == Visible(s)
    ensures |t.stack| == |s.stack| && t.highRune == s.highRune && t.skipChars == s.skipChars && t.out == s.out
    ensures t.defaultFont == s.defaultFont && t.fonts == s.fonts
  {
  }

  lemma {:induction false} AlikeInInfo(a: Stack, b: Stack)
    requires SameStack(a, b)
    ensures InInfo(a) == InInfo(b)
    decreases |a|
  {
    var n := |a| - 1;
    assert a[n].dest == b[n].dest;
    if n > 0 {
      AlikeInInfo(a[..n], b[..n]);
    } else {
      assert a[..0] == b[..0] == [];
    }
  }

  lemma AlikeWrite(s: Sem, t: Sem, b: seq<byte>)
    requires Alike(s, t)
    ensures Alike(Write(s, b), Write(t, b))
  {
    hide Capture, SameStack;
    AlikeTop(s, t);
  }

  lemma AlikeFlush(c: Codec, s: Sem, t: Sem)
    requires Alike(s, t)
    ensures Alike(FlushPending(c, s), FlushPending(c, t))
  {
    hide Capture, SameStack, DecodePage;
    AlikeTop(s, t);
    if s.pending == t.pending && s.pending != [] {
      var page := if s.Top().font in s.fonts then s.fonts[s.Top().font] else s.enc;
      AlikeWrite(s.(pending := []), t.(pending := []), DecodePage(c, page, s.pending));
    }
  }

  lemma AlikeSurrogate(s: Sem, t: Sem)
    requires Alike(s, t)
    ensures Alike(FlushHighRune(s), FlushHighRune(t))
  {
    hide Write, SameStack;
    if s.highRune != 0 {
      AlikeWrite(s.(highRune := 0), t.(highRune := 0), Utf8.Encode(Utf8.REPLACEMENT));
    }
  }

  lemma AlikeEmit(c: Codec, s: Sem, t: Sem, b: seq<byte>)
    requires Alike(s, t)
    ensures Alike(Emit(c, s, b), Emit(c, t, b))
  {
    hide FlushPending, FlushHighRune, Write, Alike;
    AlikeFlush(c, s, t);
    AlikeSurrogate(FlushPending(c, s), FlushPending(c, t));
    AlikeWrite(Flush(c, s), Flush(c, t), b);
  }

  /** A change of the innermost group that leaves its visibility alone, or comes right after a flush. */
  lemma AlikeSetTop(s: Sem, t: Sem, g: Group, h: Group)
    requires Alike(s, t) && h == g.(infoField := h.infoField)
    requires s.pending == t.pending || (g.skip == s.Top().skip && g.hidden == s.Top().hidden)
    ensures Alike(s.SetTop(g), t.SetTop(h))
  {
  }

  lemma AlikeUnicode(c: Codec, s: Sem, t: Sem, value: int)
    requires Alike(s, t)
    ensures Alike(UnicodeWord(c, s, value), UnicodeWord(c, t, value))
  {
    hide FlushPending, FlushHighRune, Write, SameStack, CodeUnit, RuneString, Combine, Utf8.Encode;
    AlikeFlush(c, s, t);
    AlikeTop(s, t);
    var f, g, r := FlushPending(c, s), FlushPending(c, t), CodeUnit(value);
    AlikeTop(f, g);
    AlikeSurrogate(f, g);
    AlikeWrite(f.(highRune := 0), g.(highRune := 0), Utf8.Encode(Utf8.REPLACEMENT));
    AlikeWrite(FlushHighRune(f), FlushHighRune(g), RuneString(r));
    if IsLowSurrogate(r) && IsHighSurrogate(f.highRune) {
      AlikeWrite(f.(highRune := 0), g.(highRune := 0), Utf8.Encode(Combine(f.highRune, r)));
    }
  }

  lemma AlikeCaptured(s: Sem, t: Sem, a: Sem, b: Sem)
    requires Alike(s, t)
    ensures Alike(s.(info := a.info, infoStarted := a.infoStarted), t.(info := b.info, infoStarted := b.infoStarted))
  {
  }

  lemma AlikeField(s: Sem, t: Sem, name: string)
    requires Alike(s, t)
    ensures Alike(StartInfoField(s, name), StartInfoField(t, name))
  {
    hide Alike;
    AlikeTop(s, t);
    var u, v := StartInfoField(s, name), StartInfoField(t, name);
    AlikeCaptured(s, t, u, v);
    AlikeSetTop(s.(info := u.info, infoStarted := u.infoStarted), t.(info := v.info, infoStarted := v.infoStarted), u.Top(), v.Top());
  }

  /** After a flush of both, the innermost groups change in the same way. */
  lemma AlikeRetop(c: Codec, s: Sem, t: Sem, f: Sem, g: Sem)
    requires Alike(s, t)
    requires f == FlushPending(c, s).SetTop(f.Top()) && g == FlushPending(c, t).SetTop(g.Top())
    requires g.Top() == f.Top().(infoField := g.Top().infoField)
    ensures Alike(f, g)
  {
    hide FlushPending, Alike, SameStack;
    AlikeFlush(c, s, t);
    AlikeSetTop(FlushPending(c, s), FlushPending(c, t), f.Top(), g.Top());
  }

  lemma AlikeSwitch(c: Codec, s: Sem, t: Sem, font: int)
    requires Alike(s, t)
    ensures Alike(SwitchFont(c, s, font), SwitchFont(c, t, font))
  {
    hide FlushPending, Alike, SameStack;
    AlikeTop(s, t);
    if s.Top().font != font {
      AlikeRetop(c, s, t, SwitchFont(c, s, font), SwitchFont(c, t, font));
    }
  }

  lemma AlikeRedirect(c: Codec, s: Sem, t: Sem, dest: Dest, font: int)
    requires Alike(s, t)
    ensures Alike(Redirect(c, s, dest, font), Redirect(c, t, dest, font))
  {
    hide FlushPending, Alike, SameStack;
    AlikeTop(s, t);
    AlikeRetop(c, s, t, Redirect(c, s, dest, font), Redirect(c, t, dest, font));
  }

  /** Numbers and tables change alike. */
  lemma AlikeWith(s: Sem, t: Sem, enc: int, defaultFont: int, fonts: map<int, int>, skipChars: int)
    requires Alike(s, t)
    ensures Alike(s.(enc := enc, defaultFont := defaultFont, fonts := fonts, skipChars := skipChars),
                  t.(enc := enc, defaultFont := defaultFont, fonts := fonts, skipChars := skipChars))
    ensures s.enc == t.enc && s.defaultFont == t.defaultFont && s.fonts == t.fonts && s.skipChars == t.skipChars
  {
  }

  lemma AlikeWord(c: Codec, s: Sem, t: Sem, word: Word, param: int, hasParam: bool)
    requires Alike(s, t)
    ensures Alike(ControlWord(c, s, word, param, hasParam), ControlWord(c, t, word, param, hasParam))
  {
    hide FlushPending, Emit, Alike, SameStack, InInfo, UnicodeWord, SwitchFont, Redirect, StartInfoField, Utf8.Encode;
    AlikeTop(s, t);
    AlikeFlush(c, s, t);
    var f, g := FlushPending(c, s), FlushPending(c, t);
    AlikeTop(f, g);
    match word
    case AnsiCpg => AlikeWith(f, g, EncodingForCodePage(param), f.defaultFont, f.fonts, f.skipChars);
    case Deff =>
      AlikeWith(f, g, f.enc, param, f.fonts, f.skipChars);
      AlikeSetTop(f.(defaultFont := param), g.(defaultFont := param), f.Top().(font := param), g.Top().(font := param));
    case Font => AlikeSwitch(c, s, t, param);
    case FCharset =>
      if param in FONT_CHARSETS {
        AlikeWith(s, t, s.enc, s.defaultFont, s.fonts[s.Top().font := EncodingForCodePage(FONT_CHARSETS[param])], s.skipChars);
      }
    case Plain => AlikeSwitch(c, s, t, s.defaultFont);
    case Uc =>
      var u, v := s.SetTop(s.Top().(uc := param)), t.SetTop(t.Top().(uc := param));
      AlikeSetTop(s, t, u.Top(), v.Top());
      AlikeWith(u, v, u.enc, u.defaultFont, u.fonts, 0);
    case Unicode => AlikeUnicode(c, s, t, param);
    case Bin => AlikeWith(s, t, s.enc, s.defaultFont, s.fonts, s.skipChars - 1);
    case Character(r) => AlikeEmit(c, s, t, Utf8.Encode(r));
    case Hidden =>
      var on := !hasParam || param != 0;
      AlikeSetTop(f, g, f.Top().(hidden := on), g.Top().(hidden := on));
    case InfoMember(name) =>
      SameInfo(s, t);
      AlikeField(s, t, name);
    case Destination(name) => AlikeRedirect(c, s, t, Ignored(name), if name == "fonttbl" then -1 else s.Top().font);
    case Info => AlikeRedirect(c, s, t, InfoBlock, s.Top().font);
    case Other =>
  }

  lemma SameInfo(s: Sem, t: Sem)
    requires Alike(s, t)
    ensures InInfo(s.stack) == InInfo(t.stack)
  {
    AlikeInInfo(s.stack, t.stack);
  }

  lemma AlikeSymbol(c: Codec, s: Sem, t: Sem, b: byte)
    requires Alike(s, t)
    ensures Alike(ControlSymbol(c, s, b), ControlSymbol(c, t, b))
  {
    hide FlushPending, Emit, Alike, SameStack, Redirect, CountsAsFallback, Utf8.Encode;
    AlikeTop(s, t);
    AlikeFlush(c, s, t);
    AlikeWith(s, t, s.enc, s.defaultFont, s.fonts, s.skipChars - 1);
    AlikeEmit(c, s, t, [b]);
    AlikeEmit(c, s, t, Utf8.Encode(0xA0));
    AlikeEmit(c, s, t, ['-' as int]);
    AlikeEmit(c, s, t, [10]);
    AlikeRedirect(c, s, t, Ignored("*"), s.Top().font);
  }

  lemma AlikeGroups(s: Sem, t: Sem)
    requires Alike(s, t) && s.pending == t.pending == []
    ensures Alike(Enter(s), Enter(t)) && Alike(Leave(s), Leave(t))
  {
  }

  /** A byte that may be captured, or be text. */
  lemma AlikeByte(s: Sem, t: Sem, b: byte)
    requires Alike(s, t)
    ensures Alike(s.(pending := s.pending + [b]), t.(pending := t.pending + [b]))
    ensures !Visible(s) ==> Alike(s.(pending := s.pending + [b]), t) && Alike(s, t.(pending := t.pending + [b]))
  {
  }

  lemma AlikeApply(c: Codec, s: Sem, t: Sem, e: Event)
    requires Alike(s, t)
    ensures Alike(Apply(c, s, e), Apply(c, t, e))
  {
    hide FlushPending, Emit, Alike, SameStack, ControlWord, ControlSymbol, Enter, Leave, Capture;
    AlikeTop(s, t);
    AlikeFlush(c, s, t);
    AlikeWith(s, t, s.enc, s.defaultFont, s.fonts, s.skipChars - 1);
    match e
    case Open => AlikeGroups(FlushPending(c, s), FlushPending(c, t));
    case Close => AlikeGroups(FlushPending(c, s), FlushPending(c, t));
    case Text(b) => AlikeEmit(c, s, t, [b]);
    case High(b) => AlikeByte(s, t, b);
    case Symbol(b) => AlikeSymbol(c, s, t, b);
    case Hex(b) => AlikeByte(s, t, b);
    case Control(word, param, hasParam) => AlikeWord(c, s, t, word, param, hasParam);
  }

  lemma {:induction false} AlikeApplyAll(c: Codec, s: Sem, t: Sem, events: seq<Event>)
    requires Alike(s, t)
    ensures Alike(ApplyAll(c, s, events), ApplyAll(c, t, events))
    decreases |events|
  {
    hide Apply, Alike;
    if events != [] {
      AlikeApply(c, s, t, events[0]);
      AlikeApplyAll(c, Apply(c, s, events[0]), Apply(c, t, events[0]), events[1..]);
    }
  }

  /** What has been captured so far never shows in the text of the rest of a document. */
  lemma {:induction false} FieldsStayOutOfText(c: Codec, s: Sem, t: Sem, lex: Lex, bytes: seq<byte>)
    requires Alike(s, t)
    ensures Run(c, s, lex, bytes).out == Run(c, t, lex, bytes).out
    decreases |bytes|
  {
    hide Alike, ApplyAll, Advance, AtEnd, FlushPending, FlushHighRune;
    if bytes == [] {
      var u, v := ApplyAll(c, s, AtEnd(lex)), ApplyAll(c, t, AtEnd(lex));
      AlikeApplyAll(c, s, t, AtEnd(lex));
      AlikeFlush(c, u, v);
      AlikeSurrogate(FlushPending(c, u), FlushPending(c, v));
      AlikeTop(Flush(c, u), Flush(c, v));
    } else {
      var l := Advance(lex, bytes[0]);
      AlikeApplyAll(c, s, t, l.events);
      FieldsStayOutOfText(c, ApplyAll(c, s, l.events), ApplyAll(c, t, l.events), l.next, bytes[1..]);
    }
  }

  /**
   * Such a group in a document, where no code-page bytes or fallback are pending, can be deleted without a change to
   * the text; without an `\info` block in it nothing else changes either, the captured fields included.
   */
  lemma SkippedGroupInDocument(c: Codec, s: Sem, allow: Allow, group: seq<byte>, head: Event, payload: seq<Event>, rest: seq<byte>)
    requires s.highRune == 0 && s.pending == [] && s.skipChars == 0
    requires Tokens(Ground, group) == Lexed(Ground, GroupEvents(head, payload))
    requires SkipsGroup(head) && IsLocal(head, allow)
    requires Balanced(payload, 0) && AllLocal(payload, allow)
    ensures Run(c, s, Ground, group + rest).out == Run(c, s, Ground, rest).out
    ensures !allow.info ==> Run(c, s, Ground, group + rest) == Run(c, s, Ground, rest)
  {
    RunTokens(c, s, Ground, group, rest);
    SkippedGroup(c, s, allow, head, payload);
    var r := ApplyAll(c, s, GroupEvents(head, payload));
    assert Alike(r, s);
    hide Run, Apply, ApplyAll;
    FieldsStayOutOfText(c, r, s, Ground, rest);
  }
}
