/**
 * The byte-level grammar of RTF that internal/parser/rtf/decode.go reads, as an automaton that is handed one
 * byte at a time and never looks ahead. The decoder itself pulls bytes, reads runs and puts bytes back.
 */
module RtfLexer {
  import opened Base
  import Utf8

  /** What a control word means to the decoder; words of one kind differ at most in the text they emit. */
  datatype Word =
    | AnsiCpg | Deff | Font | FCharset | Plain | Uc | Unicode | Bin | Hidden | Info | Other
    | Character(r: Utf8.Scalar)
    | InfoMember(name: string)
    | Destination(name: string)

  datatype Event =
    | Open
    | Close
    | Text(b: byte)
    | High(b: byte)
    | Symbol(b: byte)
    | Hex(value: byte)
    | Control(word: Word, param: int, hasParam: bool)

  /** Where the automaton is inside a control sequence; `Ground` is outside every one. */
  datatype Lex =
    | Ground
    | Slash
    | Name(name: string)
    | Number(name: string, sign: int, param: int, digits: bool)
    | Quote
    | HalfHex(hi: byte)
    | Raw(left: nat)

  datatype Lexed = Lexed(next: Lex, events: seq<Event>)

  const DESTINATIONS: set<string> := {
    "annotation", "atndate", "atnauthor", "atnid", "atnref", "bkmkend", "bkmkstart", "colorschememapping",
    "colortbl", "datastore", "docvar", "filetbl", "fonttbl", "footer", "footerf", "footerl", "footerr",
    "fldinst", "ftnsep", "ftnsepc", "aftnsep", "aftnsepc", "generator", "header", "headerf", "headerl",
    "headerr", "latentstyles", "listtable", "listoverridetable", "listtext", "mmath", "mmathPr",
    "nonshppict", "objclass", "objdata", "objname", "object", "pict", "pn", "pnseclvl", "pntext",
    "propname", "rsidtbl", "shp", "shpinst", "shprslt", "staticval", "stylesheet", "themedata", "tc",
    "tcn", "template", "userprops", "xmlclose", "xmlnstbl", "xmlopen", "xe"}

  const INFO_MEMBERS: set<string> := {
    "author", "category", "comment", "company", "doccomm", "keywords", "manager", "operator", "subject", "title"}

  function Classify(name: string): (w: Word)
    ensures w.InfoMember? ==> w.name != ""
  {
    if name == "u" then Unicode
    else if name == "" then Other
    else if name == "ansicpg" then AnsiCpg
    else if name == "deff" then Deff
    else if name == "f" then Font
    else if name == "fcharset" then FCharset
    else if name == "plain" then Plain
    else if name == "uc" then Uc
    else if name == "bin" then Bin
    else if name == "v" then Hidden
    else if name == "info" then Info
    else if name in {"par", "line", "sect", "page", "softpage", "softline", "row"} then Character(10)
    else if name in {"tab", "cell"} then Character(9)
    else if name == "emdash" then Character(0x2014)
    else if name == "endash" then Character(0x2013)
    else if name == "bullet" then Character(0x2022)
    else if name == "lquote" then Character(0x2018)
    else if name == "rquote" then Character(0x2019)
    else if name == "ldblquote" then Character(0x201C)
    else if name == "rdblquote" then Character(0x201D)
    else if name in {"emspace", "enspace", "qmspace"} then Character(0x20)
    else if name in INFO_MEMBERS then InfoMember(name)
    else if name in DESTINATIONS then Destination(name)
    else Other
  }

  predicate IsLetter(b: byte) {
    'a' as int <= b <= 'z' as int || 'A' as int <= b <= 'Z' as int
  }

  predicate IsDigit(b: byte) {
    '0' as int <= b <= '9' as int
  }

  function HexDigit(b: byte): (d: Option<nat>)
    ensures d.Some? ==> d.value < 16
  {
    if IsDigit(b) then Some(b - '0' as int)
    else if 'a' as int <= b <= 'f' as int then Some(b - 'a' as int + 10)
    else if 'A' as int <= b <= 'F' as int then Some(b - 'A' as int + 10)
    else None
  }

  function HexValue(hi: byte, lo: byte): Option<byte> {
    if HexDigit(hi).Some? && HexDigit(lo).Some? then Some(HexDigit(hi).value * 16 + HexDigit(lo).value) else None
  }

  /** A 64-bit Go `int`. */
  function Int64(n: int): int {
    Wrap(n, 0x8000_0000_0000_0000)
  }

  function AddDigit(param: int, b: byte): int {
    Int64(param * 10 + (b - '0' as int))
  }

  /** The word is complete; `\binN` is followed by N raw bytes. */
  function EndWord(name: string, param: int, hasParam: bool): (l: Lexed)
    ensures l.next.Ground? || l.next.Raw?
  {
    var word := Classify(name);
    Lexed(if word.Bin? && hasParam && param > 0 then Raw(param) else Ground, [Control(word, param, hasParam)])
  }

  /** A byte outside every control sequence, or inside raw data. */
  function Outside(lex: Lex, b: byte): (l: Lexed)
    requires lex.Ground? || lex.Raw?
  {
    if lex.Raw? && lex.left > 0 then Lexed(if lex.left == 1 then Ground else Raw(lex.left - 1), [])
    else if b == '{' as int then Lexed(Ground, [Open])
    else if b == '}' as int then Lexed(Ground, [Close])
    else if b == '\\' as int then Lexed(Slash, [])
    else if b < 0x20 then Lexed(Ground, [])
    else if b >= 0x80 then Lexed(Ground, [High(b)])
    else Lexed(Ground, [Text(b)])
  }

  /** The byte after a control word: a space belongs to the word, any other byte is read again. */
  function Delimit(l: Lexed, b: byte): Lexed
    requires l.next.Ground? || l.next.Raw?
  {
    if b == ' ' as int then l
    else var again := Outside(l.next, b); Lexed(again.next, l.events + again.events)
  }

  function Advance(lex: Lex, b: byte): Lexed {
    match lex
    case Ground => Outside(lex, b)
    case Raw(_) => Outside(lex, b)
    case Slash =>
      if b == '\'' as int then Lexed(Quote, [])
      else if IsLetter(b) then Lexed(Name([b as char]), [])
      else Lexed(Ground, [Symbol(b)])
    case Name(name) =>
      if IsLetter(b) then Lexed(Name(name + [b as char]), [])
      else if b == '-' as int then Lexed(Number(name, -1, 0, false), [])
      else if IsDigit(b) then Lexed(Number(name, 1, AddDigit(0, b), true), [])
      else Delimit(EndWord(name, 0, false), b)
    case Number(name, sign, param, digits) =>
      if IsDigit(b) then Lexed(Number(name, sign, AddDigit(param, b), true), [])
      else Delimit(EndWord(name, Int64(sign * param), digits), b)
    case Quote => Lexed(HalfHex(b), [])
    case HalfHex(hi) =>
      match HexValue(hi, b)
      case Some(v) => Lexed(Ground, [Hex(v)])
      case None => Lexed(Ground, [])
  }

  /** The input ends: an unfinished control word still counts, everything else unfinished is dropped. */
  function AtEnd(lex: Lex): seq<Event> {
    match lex
    case Name(name) => EndWord(name, 0, false).events
    case Number(name, sign, param, digits) => EndWord(name, Int64(sign * param), digits).events
    case _ => []
  }
}
