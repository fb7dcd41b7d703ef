/** What each lexical event does to the decoder state of internal/parser/rtf/decode.go. */
module RtfText {
  import opened Base
  import opened RtfLexer
  import Utf8

  /**
   * The code-page decoders, foreign to the repository: `decode` yields nothing for bytes the page rejects, and
   * `windows1252` never fails.
   */
  datatype Codec = Codec(decode: (int, seq<byte>) -> Option<seq<byte>>, windows1252: seq<byte> -> seq<byte>)

  /** Where a group's text goes: the document, the `\info` block, or a destination that is not book text. */
  datatype Dest = Document | InfoBlock | Ignored(name: string)

  datatype Group = Group(uc: int, font: int, skip: bool, hidden: bool, dest: Dest, infoField: string)

  type Stack = s: seq<Group> | |s| > 0 witness [Group(1, 0, false, false, Document, "")]

  datatype Sem = Sem(
    enc: int,
    defaultFont: int,
    fonts: map<int, int>,
    pending: seq<byte>,
    out: seq<byte>,
    stack: Stack,
    skipChars: int,
    highRune: int,
    info: map<string, seq<byte>>,
    infoStarted: set<string>)
  {
    function Top(): Group {
      stack[|stack| - 1]
    }

    function SetTop(g: Group): Sem {
      this.(stack := stack[|stack| - 1 := g])
    }
  }

  const WINDOWS_1252 := 1252

  const CODE_PAGES: set<int> := {
    437, 850, 852, 855, 858, 860, 862, 863, 865, 866, 874, 932, 936, 949, 950, 10000,
    1250, 1251, 1252, 1253, 1254, 1255, 1256, 1257, 1258, 65001}

  const FONT_CHARSETS: map<int, int> := map[
    77 := 10000, 128 := 932, 129 := 949, 134 := 936, 136 := 950, 161 := 1253, 162 := 1254, 163 := 1258,
    177 := 1255, 178 := 1256, 186 := 1257, 204 := 1251, 222 := 874, 238 := 1250]

  function EncodingForCodePage(page: int): int {
    if page in CODE_PAGES then page else WINDOWS_1252
  }

  function Init(): Sem {
    Sem(WINDOWS_1252, 0, map[], [], [], [Group(1, 0, false, false, Document, "")], 0, 0, map[], {})
  }

  /** `inInfo` as written: the innermost group that has a destination decides. */
  function InInfo(stack: seq<Group>): bool {
    if stack == [] then false
    else match stack[|stack| - 1].dest
      case Document => InInfo(stack[..|stack| - 1])
      case InfoBlock => true
      case Ignored(_) => false
  }

  /** The `\info` field being captured. */
  function Capture(s: Sem): (field: Option<string>)
    ensures field.Some? ==> field.value in s.info
  {
    var field := s.Top().infoField;
    if field == "" || !InInfo(s.stack) || field !in s.info then None else Some(field)
  }

  predicate Visible(s: Sem) {
    !s.Top().skip && !s.Top().hidden
  }

  function Write(s: Sem, b: seq<byte>): (r: Sem)
    ensures r.stack == s.stack
  {
    var field := Capture(s);
    s.(info := if field.Some? then s.info[field.value := s.info[field.value] + b] else s.info,
       out := if Visible(s) then s.out + b else s.out)
  }

  function DecodePage(c: Codec, page: int, raw: seq<byte>): seq<byte> {
    match c.decode(page, raw)
    case Some(text) => text
    case None => c.windows1252(raw)
  }

  function FlushPending(c: Codec, s: Sem): (r: Sem)
    ensures r.pending == [] && r.stack == s.stack
  {
    if s.pending == [] then s
    else
      var page := if s.Top().font in s.fonts then s.fonts[s.Top().font] else s.enc;
      Write(s.(pending := []), DecodePage(c, page, s.pending))
  }

  function FlushHighRune(s: Sem): (r: Sem)
    ensures r.highRune == 0 && r.stack == s.stack
  {
    if s.highRune == 0 then s else Write(s.(highRune := 0), Utf8.Encode(Utf8.REPLACEMENT))
  }

  function Flush(c: Codec, s: Sem): (r: Sem)
    ensures r.stack == s.stack
  {
    FlushHighRune(FlushPending(c, s))
  }

  function Emit(c: Codec, s: Sem, b: seq<byte>): (r: Sem)
    ensures r.stack == s.stack
  {
    Write(Flush(c, s), b)
  }

  /** Go's `string(r)`: anything that is not a scalar becomes U+FFFD. */
  function RuneString(r: int): seq<byte> {
    if 0 <= r < 0xD800 || 0xE000 <= r < 0x110000 then Utf8.Encode(r) else Utf8.Encode(Utf8.REPLACEMENT)
  }

  predicate IsHighSurrogate(r: int) {
    0xD800 <= r < 0xDC00
  }

  predicate IsLowSurrogate(r: int) {
    0xDC00 <= r < 0xE000
  }

  /** `utf16.DecodeRune` of a surrogate pair. */
  function Combine(hi: int, lo: int): (r: Utf8.Scalar)
    requires IsHighSurrogate(hi) && IsLowSurrogate(lo)
    ensures r >= 0x10000
  {
    (hi - 0xD800) * 0x400 + (lo - 0xDC00) + 0x10000
  }

  function CodeUnit(value: int): int {
    var r := Wrap(value, 0x8000_0000);
    if r < 0 then r + 65536 else r
  }

  function UnicodeWord(c: Codec, s: Sem, value: int): (r: Sem)
    ensures r.stack == s.stack
  {
    var f := FlushPending(c, s);
    var r := CodeUnit(value);
    var written :=
      if IsHighSurrogate(r) then FlushHighRune(f).(highRune := r)
      else if IsLowSurrogate(r) && IsHighSurrogate(f.highRune) then
        Write(f.(highRune := 0), Utf8.Encode(Combine(f.highRune, r)))
      else if IsLowSurrogate(r) && f.highRune != 0 then
        Write(f.(highRune := 0), Utf8.Encode(Utf8.REPLACEMENT))
      else Write(FlushHighRune(f), RuneString(r));
    written.(skipChars := s.Top().uc)
  }

  function Enter(s: Sem): Sem {
    s.(stack := s.stack + [s.Top()], skipChars := 0)
  }

  function Leave(s: Sem): Sem {
    if |s.stack| == 1 then s else s.(stack := s.stack[..|s.stack| - 1], skipChars := 0)
  }

  function Redirect(c: Codec, s: Sem, dest: Dest, font: int): Sem {
    var f := FlushPending(c, s);
    f.SetTop(f.Top().(skip := true, dest := dest, font := font))
  }

  function StartInfoField(s: Sem, name: string): Sem {
    if name in s.infoStarted then s.SetTop(s.Top().(infoField := ""))
    else s.(infoStarted := s.infoStarted + {name}, info := s.info[name := []]).SetTop(s.Top().(infoField := name))
  }

  function SwitchFont(c: Codec, s: Sem, font: int): Sem {
    if s.Top().font == font then s
    else var f := FlushPending(c, s); f.SetTop(f.Top().(font := font))
  }

  function ControlWord(c: Codec, s: Sem, word: Word, param: int, hasParam: bool): Sem {
    match word
    case AnsiCpg => if hasParam then FlushPending(c, s).(enc := EncodingForCodePage(param)) else s
    case Deff =>
      if !hasParam then s
      else var f := FlushPending(c, s).(defaultFont := param); f.SetTop(f.Top().(font := param))
    case Font => if hasParam then SwitchFont(c, s, param) else s
    case FCharset =>
      if hasParam && s.Top().dest == Ignored("fonttbl") && s.Top().font >= 0 && param in FONT_CHARSETS
      then s.(fonts := s.fonts[s.Top().font := EncodingForCodePage(FONT_CHARSETS[param])])
      else s
    case Plain => SwitchFont(c, s, s.defaultFont)
    case Uc => if hasParam then s.SetTop(s.Top().(uc := param)).(skipChars := 0) else s
    case Unicode => if hasParam then UnicodeWord(c, s, param) else s
    case Bin => if hasParam && param > 0 && s.skipChars > 0 then s.(skipChars := s.skipChars - 1) else s
    case Character(r) => Emit(c, s, Utf8.Encode(r))
    case Hidden => var f := FlushPending(c, s); f.SetTop(f.Top().(hidden := !hasParam || param != 0))
    case InfoMember(name) => if InInfo(s.stack) then StartInfoField(s, name) else s
    case Destination(name) =>
      if |s.stack| > 1
      then Redirect(c, s, Ignored(name), if name == "fonttbl" then -1 else s.Top().font)
      else s
    case Info => if |s.stack| > 1 then Redirect(c, s, InfoBlock, s.Top().font) else s
    case Other => s
  }

  predicate CountsAsFallback(b: byte) {
    b as char in {'\\', '{', '}', '~', '_', '-', '\r', '\n'}
  }

  function ControlSymbol(c: Codec, s: Sem, b: byte): Sem {
    if s.skipChars > 0 && CountsAsFallback(b) then s.(skipChars := s.skipChars - 1)
    else match b as char
      case '\\' => Emit(c, s, [b])
      case '{' => Emit(c, s, [b])
      case '}' => Emit(c, s, [b])
      case '~' => Emit(c, s, Utf8.Encode(0xA0))
      case '_' => Emit(c, s, ['-' as int])
      case '\r' => Emit(c, s, [10])
      case '\n' => Emit(c, s, [10])
      case '*' => if |s.stack| > 1 then Redirect(c, s, Ignored("*"), s.Top().font) else FlushPending(c, s)
      case _ => s
  }

  function Apply(c: Codec, s: Sem, e: Event): Sem {
    match e
    case Open => Enter(FlushPending(c, s))
    case Close => Leave(FlushPending(c, s))
    case Text(b) => if s.skipChars > 0 then s.(skipChars := s.skipChars - 1) else Emit(c, s, [b])
    case High(b) =>
      if s.skipChars > 0 then s.(skipChars := s.skipChars - 1)
      else if Capture(s).Some? || Visible(s) then s.(pending := s.pending + [b])
      else s
    case Symbol(b) => ControlSymbol(c, s, b)
    case Hex(v) =>
      if s.skipChars > 0 then s.(skipChars := s.skipChars - 1) else s.(pending := s.pending + [v])
    case Control(word, param, hasParam) => ControlWord(c, s, word, param, hasParam)
  }

  function ApplyAll(c: Codec, s: Sem, events: seq<Event>): Sem
    decreases |events|
  {
    if events == [] then s else ApplyAll(c, Apply(c, s, events[0]), events[1..])
  }

  /** The reference decoder: one byte per step, nothing but the automaton between two bytes. */
  function Run(c: Codec, s: Sem, lex: Lex, bytes: seq<byte>): Sem
    decreases |bytes|
  {
    if bytes == [] then Flush(c, ApplyAll(c, s, AtEnd(lex)))
    else
      var l := Advance(lex, bytes[0]);
      Run(c, ApplyAll(c, s, l.events), l.next, bytes[1..])
  }

  const BOM: seq<byte> := [0xEF, 0xBB, 0xBF]

  /** How many bytes of source white space the input starts with. */
  function Lead(input: seq<byte>): (n: nat)
    ensures n <= |input|
    ensures forall i | 0 <= i < n :: input[i] < 0x20
    ensures n < |input| ==> input[n] >= 0x20
  {
    if input == [] || input[0] >= 0x20 then 0 else 1 + Lead(input[1..])
  }

  predicate HasBom(input: seq<byte>) {
    BOM <= input[Lead(input)..]
  }

  /** The decoding of a whole input, with its byte order mark removed or read as text. */
  function Decode(c: Codec, input: seq<byte>, strip: bool): Sem {
    Run(c, Init(), Ground, if strip && HasBom(input) then input[Lead(input) + |BOM|..] else input)
  }
}
