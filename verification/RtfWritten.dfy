/**
 * What a reader sees of a written RTF document: text, named characters and escapes come out as themselves, hidden text
 * does not, and the members of the `\info` block are captured (internal/parser/rtf/decode.go:229-566).
 */
module RtfWritten {
  import opened Base
  import opened RtfLexer
  import opened RtfText
  import opened RtfRuns
  import opened RtfUnicode
  import Utf8

  // ---- control words --------------------------------------------------------------------------------------

  predicate IsName(name: string) {
    name != "" && forall i | 0 <= i < |name| :: 'a' <= name[i] <= 'z'
  }

  function Ascii(name: string): (r: seq<byte>)
    requires forall i | 0 <= i < |name| :: name[i] < 128 as char
    ensures |r| == |name|
  {
    seq(|name|, i requires 0 <= i < |name| => name[i] as int)
  }

  /** A parameter that fits a 64-bit integer. */
  type Param = n: int | -0x8000_0000_0000_0000 < n < 0x8000_0000_0000_0000

  function Digits(param: Option<Param>): seq<byte> {
    match param case None => [] case Some(n) => Written(n)
  }

  /** `\name` or `\nameN`, ended by a space if `spaced`. */
  function PrintWord(name: string, param: Option<Param>, spaced: bool): seq<byte>
    requires IsName(name)
  {
    ['\\' as int] + Ascii(name) + Digits(param) + Delimiter(spaced)
  }

  /** What can follow a word that no space ends. */
  predicate Ends(param: Option<Param>, rest: seq<byte>) {
    Stops(rest) && (param.None? && rest != [] ==> !IsLetter(rest[0]) && rest[0] != '-' as int)
  }

  lemma {:induction false} RunName(c: Codec, s: Sem, done: string, name: string, rest: seq<byte>)
    requires forall i | 0 <= i < |name| :: 'a' <= name[i] <= 'z'
    ensures Run(c, s, Name(done), Ascii(name) + rest) == Run(c, s, Name(done + name), rest)
    decreases |name|
  {
    hide Run;
    if name == "" {
      assert done + name == done && Ascii(name) + rest == rest;
    } else {
      var bytes := Ascii(name) + rest;
      RunLetter(c, s, done, bytes);
      assert bytes[1..] == Ascii(name[1..]) + rest;
      assert bytes[0] as char == name[0];
      assert done + [name[0]] + name[1..] == done + name;
      RunName(c, s, done + [name[0]], name[1..], rest);
    }
  }

  lemma RunStart(c: Codec, s: Sem, name: string, rest: seq<byte>)
    requires IsName(name)
    ensures Run(c, s, Ground, ['\\' as int] + Ascii(name) + rest) == Run(c, s, Name(name), rest)
  {
    hide Run;
    var bytes := ['\\' as int] + Ascii(name) + rest;
    RunDispatch(c, s, bytes);
    assert bytes[1..] == Ascii(name) + rest;
    RunSlash(c, s, bytes[1..]);
    assert bytes[1..][1..] == Ascii(name[1..]) + rest;
    assert [bytes[1..][0] as char] == [name[0]];
    assert [name[0]] + name[1..] == name;
    RunName(c, s, [name[0]], name[1..], rest);
  }

  lemma RunParam(c: Codec, s: Sem, name: string, value: Param, rest: seq<byte>) returns (sign: int, n: nat)
    ensures sign * n == value
    ensures Run(c, s, Name(name), Written(value) + rest) == Run(c, s, Number(name, sign, n, true), rest)
  {
    hide Run, Decimal;
    if value < 0 {
      sign, n := -1, -value;
      RunSign(c, s, name, Written(value) + rest);
      assert (Written(value) + rest)[1..] == Decimal(n) + rest;
      RunDecimal(c, s, Number(name, -1, 0, false), name, -1, n, rest);
    } else {
      sign, n := 1, value;
      RunDecimal(c, s, Name(name), name, 1, n, rest);
    }
  }

  lemma PrintedWord(name: string, param: Option<Param>, spaced: bool, rest: seq<byte>)
    requires IsName(name)
    ensures PrintWord(name, param, spaced) + rest == ['\\' as int] + Ascii(name) + (Digits(param) + (Delimiter(spaced) + rest))
  {
    hide Ascii, Digits, Delimiter;
    Regroup(['\\' as int] + Ascii(name), Digits(param), Delimiter(spaced), rest);
  }

  /** The word after its name: parameter and the space that may end it. */
  lemma RunEnded(c: Codec, s: Sem, name: string, param: Option<Param>, tail: seq<byte>)
    requires !Classify(name).Bin? && (tail == [] || !IsDigit(tail[0]))
    requires param.None? && tail != [] ==> !IsLetter(tail[0]) && tail[0] != '-' as int
    ensures Run(c, s, Name(name), Digits(param) + tail)
         == Run(c, ControlWord(c, s, Classify(name), if param.Some? then param.value else 0, param.Some?), Ground,
                if tail != [] && tail[0] == ' ' as int then tail[1..] else tail)
  {
    hide Run, ControlWord, Int64, Classify, Written;
    Int64Small(0);
    match param
    case None =>
      assert Digits(param) + tail == tail;
      RunEndWord(c, s, Name(name), name, 1, 0, false, tail);
    case Some(n) =>
      Int64Small(n);
      var sign, m := RunParam(c, s, name, n, tail);
      RunEndWord(c, s, Number(name, sign, m, true), name, sign, m, true, tail);
  }

  /** A written word other than `\bin` does what it means, and nothing of it is text. */
  lemma RunWritten(c: Codec, s: Sem, name: string, param: Option<Param>, spaced: bool, rest: seq<byte>)
    requires IsName(name) && !Classify(name).Bin? && (spaced || Ends(param, rest))
    ensures Run(c, s, Ground, PrintWord(name, param, spaced) + rest)
         == Run(c, ControlWord(c, s, Classify(name), if param.Some? then param.value else 0, param.Some?), Ground, rest)
  {
    var tail := Delimiter(spaced) + rest;
    assert if spaced then tail != [] && tail[0] == ' ' as int && tail[1..] == rest else tail == rest;
    hide Run, ControlWord, Classify, Ascii, Digits, PrintWord, Delimiter, IsName;
    PrintedWord(name, param, spaced, rest);
    RunStart(c, s, name, Digits(param) + tail);
    RunEnded(c, s, name, param, tail);
  }

  // ---- visible text ---------------------------------------------------------------------------------------

  /** The words for line breaks, tabs and spaces, */
  const SPACING: map<string, byte> := map[
    "par" := 10, "line" := 10, "sect" := 10, "page" := 10, "softpage" := 10, "softline" := 10, "row" := 10,
    "tab" := 9, "cell" := 9, "emspace" := 32, "enspace" := 32, "qmspace" := 32]

  /** those for punctuation, in UTF-8, */
  const MARKS: map<string, seq<byte>> := map[
    "emdash" := [0xE2, 0x80, 0x94], "endash" := [0xE2, 0x80, 0x93], "bullet" := [0xE2, 0x80, 0xA2],
    "lquote" := [0xE2, 0x80, 0x98], "rquote" := [0xE2, 0x80, 0x99],
    "ldblquote" := [0xE2, 0x80, 0x9C], "rdblquote" := [0xE2, 0x80, 0x9D]]

  predicate IsNamed(name: string) {
    name in SPACING || name in MARKS
  }

  /** and what stands for them in the text. */
  function NamedText(name: string): seq<byte>
    requires IsNamed(name)
  {
    if name in SPACING then [SPACING[name]] else MARKS[name]
  }

  /** The characters that are escaped by a backslash, and what stands for them in the text. */
  const ESCAPED: map<byte, seq<byte>> := map[
    '\\' as int := ['\\' as int], '{' as int := ['{' as int], '}' as int := ['}' as int],
    '~' as int := [0xC2, 0xA0], '_' as int := ['-' as int], 13 := [10], 10 := [10]]

  datatype Item = Byte(b: byte) | Named(name: string) | Escape(b: byte) | Break(b: byte)

  /** Ordinary bytes, words and escapes with a meaning, and source white space without one. */
  predicate IsItem(item: Item) {
    match item
    case Byte(b) => IsPlain(b)
    case Named(name) => IsNamed(name)
    case Escape(b) => b in ESCAPED
    case Break(b) => b < 0x20
  }

  function PrintItem(item: Item): seq<byte>
    requires IsItem(item)
  {
    match item
    case Byte(b) => [b]
    case Named(name) =>
      NamesAreNames(name);
      PrintWord(name, None, true)
    case Escape(b) => ['\\' as int, b]
    case Break(b) => [b]
  }

  function TextOf(item: Item): seq<byte>
    requires IsItem(item)
  {
    match item
    case Byte(b) => [b]
    case Named(name) => NamedText(name)
    case Escape(b) => ESCAPED[b]
    case Break(_) => []
  }

  predicate AreItems(items: seq<Item>) {
    forall i | 0 <= i < |items| :: IsItem(items[i])
  }

  function PrintItems(items: seq<Item>): seq<byte>
    requires AreItems(items)
  {
    if items == [] then [] else PrintItem(items[0]) + PrintItems(items[1..])
  }

  function TextOfAll(items: seq<Item>): seq<byte>
    requires AreItems(items)
  {
    if items == [] then [] else TextOf(items[0]) + TextOfAll(items[1..])
  }

  lemma NamesAreNames(name: string)
    requires IsNamed(name)
    ensures IsName(name)
  {
  }

  /** Nothing is waiting to be written, and no fallback character to be dropped. */
  predicate Clear(s: Sem) {
    s.pending == [] && s.highRune == 0 && s.skipChars == 0
  }

  lemma SpacingWord(name: string)
    requires name in SPACING
    ensures Classify(name) == Character(SPACING[name])
  {
  }

  lemma MarkWord(name: string)
    requires name in MARKS
    ensures Classify(name).Character? && Utf8.Encode(Classify(name).r) == MARKS[name]
  {
  }

  lemma NamedIsCharacter(c: Codec, s: Sem, name: string)
    requires IsNamed(name) && Clear(s)
    ensures !Classify(name).Bin?
    ensures ControlWord(c, s, Classify(name), 0, false) == Write(s, NamedText(name))
  {
    hide Write, Classify;
    if name in SPACING {
      SpacingWord(name);
    } else {
      MarkWord(name);
    }
  }

  lemma EscapedIsSymbol(c: Codec, s: Sem, b: byte)
    requires b in ESCAPED && Clear(s)
    ensures ControlSymbol(c, s, b) == Write(s, ESCAPED[b])
  {
    assert Utf8.Encode(0xA0) == [0xC2, 0xA0];
    hide Write, Utf8.Encode;
  }

  lemma RunItem(c: Codec, s: Sem, item: Item, rest: seq<byte>)
    requires IsItem(item) && Clear(s)
    ensures Run(c, s, Ground, PrintItem(item) + rest)
         == Run(c, if item.Break? then s else Write(s, TextOf(item)), Ground, rest)
  {
    hide Run, Write, PrintWord;
    var bytes := PrintItem(item) + rest;
    match item
    case Byte(b) =>
      RunPlainByte(c, s, bytes);
      assert bytes[1..] == rest;
    case Named(name) =>
      NamesAreNames(name);
      NamedIsCharacter(c, s, name);
      RunWritten(c, s, name, None, true, rest);
    case Escape(b) =>
      RunDispatch(c, s, bytes);
      RunSlash(c, s, bytes[1..]);
      EscapedIsSymbol(c, s, b);
      assert bytes[1..][1..] == rest;
    case Break(b) =>
      RunWhite(c, s, 1, bytes);
      assert bytes[1..] == rest;
  }

  lemma WriteIsClear(s: Sem, b: seq<byte>)
    requires Clear(s)
    ensures Clear(Write(s, b)) && Write(s, []) == s
  {
    assert s.out + [] == s.out;
    if Capture(s).Some? {
      var f := Capture(s).value;
      assert s.info[f] + [] == s.info[f];
      assert s.info[f := s.info[f]] == s.info;
    }
  }

  /** Written text comes out as itself. */
  lemma {:induction false} RunItems(c: Codec, s: Sem, items: seq<Item>, rest: seq<byte>)
    requires AreItems(items) && Clear(s)
    ensures Run(c, s, Ground, PrintItems(items) + rest) == Run(c, Write(s, TextOfAll(items)), Ground, rest)
    decreases |items|
  {
    hide Run, Write, IsItem, PrintItem, TextOf;
    WriteIsClear(s, []);
    if items == [] {
      assert PrintItems(items) + rest == rest;
    } else {
      var tail := PrintItems(items[1..]) + rest;
      assert PrintItems(items) + rest == PrintItem(items[0]) + tail;
      RunItem(c, s, items[0], tail);
      WriteIsClear(s, TextOf(items[0]));
      BreakIsNothing(items[0]);
      RunItems(c, Write(s, TextOf(items[0])), items[1..], rest);
      WriteTwice(s, TextOf(items[0]), TextOfAll(items[1..]));
    }
  }

  lemma BreakIsNothing(item: Item)
    requires IsItem(item)
    ensures item.Break? ==> TextOf(item) == []
  {
  }

  /** The text of a document of such items, as a reader of the stream gets it. */
  lemma WrittenDocument(c: Codec, items: seq<Item>)
    requires AreItems(items)
    ensures Run(c, Init(), Ground, PrintItems(items)).out == TextOfAll(items)
  {
    assert PrintItems(items) + [] == PrintItems(items);
    RunItems(c, Init(), items, []);
    RunEnd(c, Write(Init(), TextOfAll(items)), Ground);
    WriteIsClear(Init(), TextOfAll(items));
    assert [] + TextOfAll(items) == TextOfAll(items);
  }

  // ---- groups ---------------------------------------------------------------------------------------------

  function Braced(inner: seq<byte>): seq<byte> {
    ['{' as int] + inner + ['}' as int]
  }

  lemma RunOpened(c: Codec, s: Sem, inner: seq<byte>, rest: seq<byte>)
    requires Clear(s)
    ensures Run(c, s, Ground, Braced(inner) + rest) == Run(c, Enter(s), Ground, inner + (['}' as int] + rest))
  {
    hide Run;
    var bytes := Braced(inner) + rest;
    RunDispatch(c, s, bytes);
    assert bytes[1..] == inner + (['}' as int] + rest);
  }

  lemma RunClosed(c: Codec, s: Sem, rest: seq<byte>)
    requires Clear(s)
    ensures Run(c, s, Ground, ['}' as int] + rest) == Run(c, Leave(s), Ground, rest)
  {
    hide Run;
    var bytes := ['}' as int] + rest;
    RunDispatch(c, s, bytes);
    assert bytes[1..] == rest;
  }

  lemma InheritedInfo(stack: Stack, g: Group)
    requires g.dest == stack[|stack| - 1].dest
    ensures InInfo(stack + [g]) == InInfo(stack)
  {
    assert (stack + [g])[..|stack|] == stack;
  }

  // ---- hidden text ----------------------------------------------------------------------------------------

  /** `s` in a group of its own, hidden or not. */
  function InGroup(s: Sem, hidden: bool): Sem {
    s.(stack := s.stack + [s.Top().(hidden := hidden)])
  }

  lemma WordV(c: Codec, s: Sem, t: Sem, off: bool)
    requires Clear(s) && t.stack[..|t.stack| - 1] == s.stack && t == s.(stack := t.stack)
    requires t.Top().(hidden := true) == s.Top().(hidden := true)
    ensures IsName("v") && Classify("v").Hidden?
    ensures ControlWord(c, t, Hidden, 0, !off) == InGroup(s, off)
  {
    assert t.stack == s.stack + [t.Top()];
  }

  lemma GroupWrite(s: Sem, hidden: bool, b: seq<byte>)
    requires Clear(s) && Visible(s) && Capture(s).None?
    ensures Write(InGroup(s, hidden), b) == InGroup(if hidden then s else s.(out := s.out + b), hidden)
  {
    InheritedInfo(s.stack, s.Top().(hidden := hidden));
  }

  lemma LeaveGroup(s: Sem, hidden: bool)
    requires Clear(s)
    ensures Leave(InGroup(s, hidden)) == s && Clear(InGroup(s, hidden))
  {
    assert (s.stack + [s.Top().(hidden := hidden)])[..|s.stack|] == s.stack;
  }

  /** `{\v hidden\v0 shown}` */
  function PrintHidden(hidden: seq<Item>, shown: seq<Item>): seq<byte>
    requires AreItems(hidden) && AreItems(shown)
  {
    assert IsName("v");
    Braced(PrintWord("v", None, true) + PrintItems(hidden) + PrintWord("v", Some(0), true) + PrintItems(shown))
  }

  lemma RunV(c: Codec, s: Sem, t: Sem, off: bool, rest: seq<byte>)
    requires Clear(s) && t.stack[..|t.stack| - 1] == s.stack && t == s.(stack := t.stack) && IsName("v")
    requires t.Top().(hidden := true) == s.Top().(hidden := true)
    ensures Run(c, t, Ground, PrintWord("v", if off then None else Some(0), true) + rest) == Run(c, InGroup(s, off), Ground, rest)
  {
    WordV(c, s, t, off);
    hide Run, PrintWord, InGroup, ControlWord, Classify;
    RunWritten(c, t, "v", if off then None else Some(0), true, rest);
  }

  lemma InGroupIs(s: Sem, hidden: bool)
    ensures Enter(s).skipChars == 0
    ensures var t := if hidden then InGroup(s, true) else Enter(s);
      && t.stack[..|t.stack| - 1] == s.stack && (s.skipChars == 0 ==> t == s.(stack := t.stack))
      && t.Top().(hidden := true) == s.Top().(hidden := true)
  {
  }

  /** Text after `\v` does not appear, text after `\v0` does. */
  lemma HiddenText(c: Codec, s: Sem, hidden: seq<Item>, shown: seq<Item>, rest: seq<byte>)
    requires Clear(s) && Visible(s) && Capture(s).None? && AreItems(hidden) && AreItems(shown)
    ensures Run(c, s, Ground, PrintHidden(hidden, shown) + rest)
         == Run(c, s.(out := s.out + TextOfAll(shown)), Ground, rest)
  {
    assert IsName("v");
    var a, b, x, y := PrintWord("v", None, true), PrintWord("v", Some(0), true), PrintItems(hidden), PrintItems(shown);
    assert PrintHidden(hidden, shown) == Braced(a + x + b + y);
    var done := s.(out := s.out + TextOfAll(shown));
    assert Clear(done);
    InGroupIs(s, false);
    InGroupIs(s, true);
    hide *;
    var h, v := InGroup(s, true), InGroup(s, false);
    var end := ['}' as int] + rest;
    RunOpened(c, s, a + x + b + y, rest);
    FourParts(a, x, b, y, end);
    RunV(c, s, Enter(s), true, x + (b + (y + end)));
    LeaveGroup(s, true);
    RunItems(c, h, hidden, b + (y + end));
    GroupWrite(s, true, TextOfAll(hidden));
    RunV(c, s, h, false, y + end);
    LeaveGroup(s, false);
    RunItems(c, v, shown, end);
    GroupWrite(s, false, TextOfAll(shown));
    LeaveGroup(done, false);
    RunClosed(c, InGroup(done, false), rest);
  }

  lemma FourParts(a: seq<byte>, x: seq<byte>, b: seq<byte>, y: seq<byte>, end: seq<byte>)
    ensures a + x + b + y + end == a + (x + (b + (y + end)))
  {
  }

  // ---- the `\info` block ----------------------------------------------------------------------------------

  /** A member of the block, as `{\title The text}`. */
  datatype Member = Member(name: string, items: seq<Item>)

  predicate IsMember(m: Member) {
    m.name in INFO_MEMBERS && AreItems(m.items)
  }

  lemma MembersAreNames(name: string)
    requires name in INFO_MEMBERS
    ensures IsName(name) && name != ""
  {
  }

  lemma MembersAreWords(name: string)
    requires name in INFO_MEMBERS
    ensures Classify(name) == InfoMember(name)
  {
    hide IsName;
    assert |name| > 4;
  }

  predicate AreMembers(ms: seq<Member>) {
    forall i | 0 <= i < |ms| :: IsMember(ms[i])
  }

  function PrintMember(m: Member): seq<byte>
    requires IsMember(m)
  {
    MembersAreNames(m.name);
    Braced(PrintWord(m.name, None, true) + PrintItems(m.items))
  }

  function PrintMembers(ms: seq<Member>): seq<byte>
    requires AreMembers(ms)
  {
    if ms == [] then [] else PrintMember(ms[0]) + PrintMembers(ms[1..])
  }

  /** What one member captures. */
  function CaptureMember(s: Sem, m: Member): Sem
    requires IsMember(m)
  {
    if m.name in s.infoStarted then s
    else s.(info := s.info[m.name := TextOfAll(m.items)], infoStarted := s.infoStarted + {m.name})
  }

  function CaptureAll(s: Sem, ms: seq<Member>): Sem
    requires AreMembers(ms)
    decreases |ms|
  {
    if ms == [] then s else CaptureAll(CaptureMember(s, ms[0]), ms[1..])
  }

  /** `s` with the block open. */
  function InBlock(s: Sem): Sem {
    s.(stack := s.stack + [s.Top().(skip := true, dest := InfoBlock)])
  }

  lemma WriteField(t: Sem, text: seq<byte>)
    requires t.Top().skip && t.Top().dest == InfoBlock
    requires var f := t.Top().infoField; f != "" ==> f in t.info && t.info[f] == []
    ensures Write(t, text) == if t.Top().infoField == "" then t else t.(info := t.info[t.Top().infoField := text])
  {
    assert [] + text == text;
  }

  /** The group of a member, which captures a field or, the name being known, nothing. */
  lemma FieldGroup(s: Sem, name: string)
    requires Clear(s)
    ensures var t := StartInfoField(Enter(InBlock(s)), name);
      var known := name in s.infoStarted;
      && t.stack[..|t.stack| - 1] == InBlock(s).stack && t.Top().skip && t.Top().dest == InfoBlock
      && t.Top().infoField == (if known then "" else name)
      && t == s.(stack := t.stack, info := if known then s.info else s.info[name := []],
                 infoStarted := if known then s.infoStarted else s.infoStarted + {name})
  {
    var e := Enter(InBlock(s));
    var t := StartInfoField(e, name);
    assert t.stack == e.stack[..|e.stack| - 1] + [t.Top()] && e.stack[..|e.stack| - 1] == InBlock(s).stack;
  }

  lemma LeaveTo(t: Sem, stack: Stack)
    requires t.stack[..|t.stack| - 1] == stack && t.skipChars == 0
    ensures Leave(t) == t.(stack := stack)
  {
  }

  lemma InBlockWith(s: Sem, t: Sem, stack: Stack)
    requires t == s.(info := t.info, infoStarted := t.infoStarted) && stack == InBlock(s).stack
    ensures InBlock(t) == t.(stack := stack)
  {
  }

  lemma MemberStep(s: Sem, m: Member)
    requires IsMember(m) && Clear(s) && m.name != ""
    ensures var t := StartInfoField(Enter(InBlock(s)), m.name);
      Clear(t) && Leave(Write(t, TextOfAll(m.items))) == InBlock(CaptureMember(s, m))
  {
    var t := StartInfoField(Enter(InBlock(s)), m.name);
    var text := TextOfAll(m.items);
    FieldGroup(s, m.name);
    InBlockWith(s, CaptureMember(s, m), InBlock(s).stack);
    hide StartInfoField, Enter, InBlock, Write, Leave, TextOfAll, IsMember;
    WriteField(t, text);
    assert s.info[m.name := []][m.name := text] == s.info[m.name := text];
    LeaveTo(Write(t, text), InBlock(s).stack);
  }

  lemma InBlockIsInfo(s: Sem)
    requires Clear(s)
    ensures Clear(InBlock(s)) && Clear(Enter(InBlock(s))) && InInfo(Enter(InBlock(s)).stack)
  {
  }

  lemma FieldWord(c: Codec, s: Sem, name: string)
    requires InInfo(s.stack)
    ensures ControlWord(c, s, InfoMember(name), 0, false) == StartInfoField(s, name)
  {
    hide StartInfoField, InInfo;
  }

  /** The word that starts a field. */
  lemma RunField(c: Codec, s: Sem, name: string, rest: seq<byte>)
    requires Classify(name) == InfoMember(name) && IsName(name) && InInfo(s.stack)
    ensures Run(c, s, Ground, PrintWord(name, None, true) + rest) == Run(c, StartInfoField(s, name), Ground, rest)
  {
    hide *;
    FieldWord(c, s, name);
    RunWritten(c, s, name, None, true, rest);
  }

  lemma RunMember(c: Codec, s: Sem, m: Member, rest: seq<byte>)
    requires IsMember(m) && Clear(s)
    ensures Run(c, InBlock(s), Ground, PrintMember(m) + rest) == Run(c, InBlock(CaptureMember(s, m)), Ground, rest)
  {
    MembersAreNames(m.name);
    MembersAreWords(m.name);
    var a, x, end := PrintWord(m.name, None, true), PrintItems(m.items), ['}' as int] + rest;
    assert PrintMember(m) == Braced(a + x);
    hide *;
    Reassociate(a, x, end);
    var e := Enter(InBlock(s));
    var t := StartInfoField(e, m.name);
    InBlockIsInfo(s);
    MemberStep(s, m);
    WriteIsClear(t, TextOfAll(m.items));
    RunOpened(c, InBlock(s), a + x, rest);
    RunField(c, e, m.name, x + end);
    RunItems(c, t, m.items, end);
    RunClosed(c, Write(t, TextOfAll(m.items)), rest);
  }

  lemma {:induction false} RunMembers(c: Codec, s: Sem, ms: seq<Member>, rest: seq<byte>)
    requires AreMembers(ms) && Clear(s)
    ensures Run(c, InBlock(s), Ground, PrintMembers(ms) + rest) == Run(c, InBlock(CaptureAll(s, ms)), Ground, rest)
    ensures Clear(CaptureAll(s, ms))
    decreases |ms|
  {
    hide Run, IsMember, PrintMember, InBlock;
    if ms == [] {
      assert PrintMembers(ms) + rest == rest;
    } else {
      var tail := PrintMembers(ms[1..]) + rest;
      assert PrintMembers(ms) + rest == PrintMember(ms[0]) + tail;
      RunMember(c, s, ms[0], tail);
      RunMembers(c, CaptureMember(s, ms[0]), ms[1..], rest);
    }
  }

  lemma OpenBlock(c: Codec, s: Sem)
    requires Clear(s)
    ensures IsName("info") && Classify("info").Info? && ControlWord(c, Enter(s), Info, 0, false) == InBlock(s)
    ensures Leave(InBlock(s)) == s && Clear(InBlock(s))
  {
    assert InBlock(s).stack[..|s.stack|] == s.stack;
    assert Enter(s).stack[|s.stack| := InBlock(s).Top()] == InBlock(s).stack;
  }

  /** A whole `\info` block: its members are captured, and the text does not change. */
  lemma InfoIsCaptured(c: Codec, s: Sem, ms: seq<Member>, rest: seq<byte>)
    requires AreMembers(ms) && Clear(s)
    ensures IsName("info")
    ensures Run(c, s, Ground, Braced(PrintWord("info", None, true) + PrintMembers(ms)) + rest)
         == Run(c, CaptureAll(s, ms), Ground, rest)
  {
    var a, x, end := PrintWord("info", None, true), PrintMembers(ms), ['}' as int] + rest;
    OpenBlock(c, s);
    hide Run, Enter, PrintWord, InBlock, Leave, Classify, ControlWord;
    RunOpened(c, s, a + x, rest);
    Reassociate(a, x, end);
    RunWritten(c, Enter(s), "info", None, true, x + end);
    RunMembers(c, s, ms, end);
    OpenBlock(c, CaptureAll(s, ms));
    RunClosed(c, InBlock(CaptureAll(s, ms)), rest);
  }

  /** A field is the text of the first member of its name, and what was captured before stays. */
  lemma {:induction false} FirstMemberCounts(s: Sem, ms: seq<Member>, i: nat, name: string)
    requires AreMembers(ms)
    ensures var t := CaptureAll(s, ms);
      && t == s.(info := t.info, infoStarted := t.infoStarted)
      && (name in s.infoStarted ==> (name in t.info <==> name in s.info) && (name in s.info ==> t.info[name] == s.info[name]))
      && (i < |ms| && ms[i].name == name && name !in s.infoStarted && (forall j | 0 <= j < i :: ms[j].name != name)
          ==> name in t.info && t.info[name] == TextOfAll(ms[i].items))
    decreases |ms|
  {
    hide IsMember, TextOfAll;
    if ms != [] {
      FirstMemberCounts(CaptureMember(s, ms[0]), ms[1..], if i > 0 then i - 1 else 0, name);
    }
  }

  // ---- words without a meaning here -----------------------------------------------------------------------

  /** The words with a meaning of their own. */
  const WORDS := {"ansicpg", "deff", "f", "fcharset", "plain", "uc", "u", "bin", "v", "info"}

  /** Any other word is passed over. */
  lemma UnknownWord(c: Codec, s: Sem, name: string, param: Option<Param>, spaced: bool, rest: seq<byte>)
    requires IsName(name) && name !in WORDS && !IsNamed(name) && name !in INFO_MEMBERS && name !in DESTINATIONS
    requires spaced || Ends(param, rest)
    ensures Run(c, s, Ground, PrintWord(name, param, spaced) + rest) == Run(c, s, Ground, rest)
  {
    assert Classify(name).Other?;
    hide *;
    OtherWord(c, s, if param.Some? then param.value else 0, param.Some?);
    RunWritten(c, s, name, param, spaced, rest);
  }

  lemma OtherWord(c: Codec, s: Sem, param: int, hasParam: bool)
    ensures ControlWord(c, s, RtfLexer.Word.Other, param, hasParam) == s
  {
  }

  /** Outside the `\info` block the names of its members mean nothing. */
  lemma MemberOutside(c: Codec, s: Sem, name: string, rest: seq<byte>)
    requires name in INFO_MEMBERS && !InInfo(s.stack)
    ensures IsName(name)
    ensures Run(c, s, Ground, PrintWord(name, None, true) + rest) == Run(c, s, Ground, rest)
  {
    MembersAreNames(name);
    MembersAreWords(name);
    assert ControlWord(c, s, InfoMember(name), 0, false) == s;
    hide *;
    RunWritten(c, s, name, None, true, rest);
  }

  // ---- destinations ---------------------------------------------------------------------------------------

  /** `s` in a group that is a skipped destination. */
  function InSkipped(s: Sem, name: string): Sem {
    s.(stack := s.stack + [s.Top().(skip := true, dest := Ignored(name), font := if name == "fonttbl" then -1 else s.Top().font)])
  }

  lemma SkipInGroup(c: Codec, s: Sem, name: string)
    requires Clear(s)
    ensures Redirect(c, Enter(s), Ignored(name), if name == "fonttbl" then -1 else s.Top().font) == InSkipped(s, name)
    ensures Clear(InSkipped(s, name)) && Leave(InSkipped(s, name)) == s
    ensures forall b :: Write(InSkipped(s, name), b) == InSkipped(s, name)
  {
    assert InSkipped(s, name).stack[..|s.stack|] == s.stack;
    assert Enter(s).stack[|s.stack| := InSkipped(s, name).Top()] == InSkipped(s, name).stack;
  }

  /** What a skipped destination holds disappears with it. */
  lemma SkippedText(c: Codec, s: Sem, name: string, items: seq<Item>, rest: seq<byte>)
    requires Clear(s) && AreItems(items)
    ensures Run(c, InSkipped(s, name), Ground, PrintItems(items) + (['}' as int] + rest)) == Run(c, s, Ground, rest)
  {
    hide *;
    SkipInGroup(c, s, name);
    RunItems(c, InSkipped(s, name), items, ['}' as int] + rest);
    RunClosed(c, InSkipped(s, name), rest);
  }

  /** `{\*text}` */
  lemma StarGroup(c: Codec, s: Sem, items: seq<Item>, rest: seq<byte>)
    requires Clear(s) && AreItems(items)
    ensures Run(c, s, Ground, Braced(['\\' as int, '*' as int] + PrintItems(items)) + rest) == Run(c, s, Ground, rest)
  {
    var star, x, end := ['\\' as int, '*' as int], PrintItems(items), ['}' as int] + rest;
    SkipInGroup(c, s, "*");
    assert ControlSymbol(c, Enter(s), '*' as int) == Redirect(c, Enter(s), Ignored("*"), s.Top().font);
    hide Run, Enter, InSkipped, ControlSymbol, Redirect, Clear;
    RunOpened(c, s, star + x, rest);
    Reassociate(star, x, end);
    var bytes := star + (x + end);
    RunDispatch(c, Enter(s), bytes);
    RunSlash(c, Enter(s), bytes[1..]);
    assert bytes[1..][1..] == x + end;
    SkippedText(c, s, "*", items, rest);
  }

  /** `{\pict text}` and the other destinations that are not book text. */
  lemma DestinationGroup(c: Codec, s: Sem, name: string, items: seq<Item>, rest: seq<byte>)
    requires Clear(s) && AreItems(items) && IsName(name) && Classify(name) == Destination(name)
    ensures Run(c, s, Ground, Braced(PrintWord(name, None, true) + PrintItems(items)) + rest) == Run(c, s, Ground, rest)
  {
    var a, x, end := PrintWord(name, None, true), PrintItems(items), ['}' as int] + rest;
    assert |Enter(s).stack| > 1 && Enter(s).Top() == s.Top();
    assert ControlWord(c, Enter(s), Destination(name), 0, false)
        == Redirect(c, Enter(s), Ignored(name), if name == "fonttbl" then -1 else s.Top().font);
    hide *;
    SkipInGroup(c, s, name);
    RunOpened(c, s, a + x, rest);
    Reassociate(a, x, end);
    RunWritten(c, Enter(s), name, None, true, x + end);
    SkippedText(c, s, name, items, rest);
  }

  lemma PictIsDestination()
    ensures IsName("pict") && Classify("pict") == Destination("pict")
  {
    assert "pict" in DESTINATIONS;
    hide DESTINATIONS;
  }

  /** A picture leaves no text. */
  lemma PictureGroup(c: Codec, s: Sem, items: seq<Item>, rest: seq<byte>)
    requires Clear(s) && AreItems(items)
    ensures IsName("pict")
    ensures Run(c, s, Ground, Braced(PrintWord("pict", None, true) + PrintItems(items)) + rest) == Run(c, s, Ground, rest)
  {
    PictIsDestination();
    hide *;
    DestinationGroup(c, s, "pict", items, rest);
  }

  /** Raw data after `\binN` is no text. */
  lemma BinarySkipped(c: Codec, s: Sem, data: seq<byte>, rest: seq<byte>)
    requires Clear(s) && 0 < |data| < 0x8000_0000_0000_0000
    ensures Run(c, s, Ground, PrintFallback(Binary(data)) + rest) == Run(c, s, Ground, rest)
  {
    var n, tail := |data|, [' ' as int] + (data + rest);
    PrintBinary(data, rest);
    BinWord(c, s, n);
    assert tail[1..] == data + rest;
    hide Run, Decimal, Int64, Apply, Classify, EndWord, BACKSLASH_BIN, PrintFallback;
    RunBinName(c, s, Decimal(n) + tail);
    RunDecimal(c, s, Name("bin"), "bin", 1, n, tail);
    Int64Small(n);
    RunEndWord(c, s, Number("bin", 1, n, true), "bin", 1, n, true, tail);
    RunRaw(c, s, n, data + rest);
    assert (data + rest)[n..] == rest;
  }

  lemma BinWord(c: Codec, s: Sem, n: nat)
    requires n > 0 && Clear(s)
    ensures Apply(c, s, Control(Classify("bin"), n, true)) == s && EndWord("bin", n, true).next == Raw(n)
  {
  }

  // ---- code units -----------------------------------------------------------------------------------------

  /** `\ucN` says how many fallback characters follow each code unit, whatever was still to be dropped before it; */
  lemma FallbackCount(c: Codec, s: Sem, n: Param, rs: seq<Utf8.Scalar>, ws: seq<RtfUnicode.Word>, rest: seq<byte>)
    requires s.pending == [] && s.highRune == 0 && n >= 0 && WellWritten(ws, n, rest) && Units(ws) == EncodeAll16(rs)
    ensures IsName("uc")
    ensures var t := s.SetTop(s.Top().(uc := n)).(skipChars := 0);
      Run(c, s, Ground, PrintWord("uc", Some(n), true) + (PrintAll(ws) + rest)) == Run(c, Write(t, Utf8.EncodeAll(rs)), Ground, rest)
  {
    var t := s.SetTop(s.Top().(uc := n)).(skipChars := 0);
    WordUc(c, s, n);
    UnitsInClear(c, t, rs, ws);
    assert Clear(t) && t.Top().uc == n;
    hide *;
    RunWritten(c, s, "uc", Some(n), true, PrintAll(ws) + rest);
    UnicodeText(c, t, rs, ws, rest);
  }

  lemma WordUc(c: Codec, s: Sem, n: Param)
    ensures IsName("uc") && !Classify("uc").Bin?
    ensures ControlWord(c, s, Classify("uc"), n, true) == s.SetTop(s.Top().(uc := n)).(skipChars := 0)
  {
    assert Classify("uc").Uc?;
  }

  lemma UnitsInClear(c: Codec, t: Sem, rs: seq<Utf8.Scalar>, ws: seq<RtfUnicode.Word>)
    requires Clear(t) && t.Top().uc >= 0 && Units(ws) == EncodeAll16(rs)
    ensures (if ws == [] then t else Write(RtfUnicode.Settled(c, t), Utf8.EncodeAll(rs))) == Write(t, Utf8.EncodeAll(rs))
  {
    if ws == [] {
      assert rs == [] by { RoundTrip16(rs); }
      WriteIsClear(t, []);
    } else {
      assert RtfUnicode.Settled(c, t) == t;
    }
  }

  /** without it, one. */
  lemma UnicodeDocument(c: Codec, rs: seq<Utf8.Scalar>, ws: seq<RtfUnicode.Word>)
    requires WellWritten(ws, 1, []) && Units(ws) == EncodeAll16(rs)
    ensures Run(c, Init(), Ground, PrintAll(ws)).out == Utf8.EncodeAll(rs)
  {
    var text := Utf8.EncodeAll(rs);
    assert PrintAll(ws) + [] == PrintAll(ws);
    UnitsInClear(c, Init(), rs, ws);
    UnicodeText(c, Init(), rs, ws, []);
    RunEnd(c, Write(Init(), text), Ground);
    WriteIsClear(Init(), text);
    assert [] + text == text;
    hide Run, WellWritten, Units, EncodeAll16;
  }
}
