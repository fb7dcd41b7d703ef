/**
 * Which code page decodes the bytes of a document: that of the charset its font is declared with, else the document's
 * (internal/parser/rtf/decode.go:207-223, 300-350, 549-557).
 */
module RtfPages {
  import opened Base
  import opened RtfLexer
  import opened RtfText
  import opened RtfRuns
  import opened RtfUnicode
  import opened RtfWritten

  /** A byte of code-page text, as it is or as `\'hh`. */
  datatype Code = Raw(b: byte) | Escaped(b: byte, upper: bool)

  predicate IsCode(x: Code) {
    x.Raw? ==> x.b >= 0x80
  }

  predicate AreCodes(xs: seq<Code>) {
    forall i | 0 <= i < |xs| :: IsCode(xs[i])
  }

  function HexChar(d: nat, upper: bool): byte
    requires d < 16
  {
    (if upper then "0123456789ABCDEF"[d] else "0123456789abcdef"[d]) as int
  }

  function PrintCode(x: Code): seq<byte> {
    match x
    case Raw(b) => [b]
    case Escaped(b, upper) => ['\\' as int, '\'' as int, HexChar(b / 16, upper), HexChar(b % 16, upper)]
  }

  function PrintCodes(xs: seq<Code>): seq<byte> {
    if xs == [] then [] else PrintCode(xs[0]) + PrintCodes(xs[1..])
  }

  function BytesOf(xs: seq<Code>): (r: seq<byte>)
    ensures |r| == |xs|
  {
    seq(|xs|, i requires 0 <= i < |xs| => xs[i].b)
  }

  lemma HexReads(d: nat, upper: bool)
    requires d < 16
    ensures HexDigit(HexChar(d, upper)) == Some(d)
  {
  }

  lemma HexPairReads(b: byte, upper: bool)
    ensures HexValue(HexChar(b / 16, upper), HexChar(b % 16, upper)) == Some(b)
  {
    HexReads(b / 16, upper);
    HexReads(b % 16, upper);
    hide HexDigit, HexChar;
  }

  predicate Taken(s: Sem) {
    Capture(s).Some? || Visible(s)
  }

  lemma RunOneCode(c: Codec, s: Sem, x: Code, rest: seq<byte>)
    requires IsCode(x) && s.skipChars == 0 && Taken(s)
    ensures Run(c, s, Ground, PrintCode(x) + rest) == Run(c, s.(pending := s.pending + [x.b]), Ground, rest)
  {
    hide Run, Capture, Visible, HexChar, HexValue;
    var bytes := PrintCode(x) + rest;
    match x
    case Raw(b) =>
      RunDispatch(c, s, bytes);
      assert bytes[1..] == rest;
    case Escaped(b, upper) =>
      RunDispatch(c, s, bytes);
      RunSlash(c, s, bytes[1..]);
      RunHex(c, s, bytes[1..][1..]);
      HexPairReads(b, upper);
      assert bytes[1..][1..][2..] == rest;
  }

  lemma TakenMore(s: Sem, pending: seq<byte>)
    ensures Taken(s.(pending := pending)) == Taken(s)
  {
    assert Capture(s.(pending := pending)) == Capture(s);
  }

  /** Both forms add the byte to the run that is still to be decoded. */
  lemma {:induction false} RunCodes(c: Codec, s: Sem, xs: seq<Code>, rest: seq<byte>)
    requires AreCodes(xs) && s.skipChars == 0 && Taken(s)
    ensures Run(c, s, Ground, PrintCodes(xs) + rest) == Run(c, s.(pending := s.pending + BytesOf(xs)), Ground, rest)
    decreases |xs|
  {
    hide Run, IsCode, PrintCode, Taken;
    if xs == [] {
      assert PrintCodes(xs) + rest == rest && s.pending + [] == s.pending;
    } else {
      var tail := PrintCodes(xs[1..]) + rest;
      assert PrintCodes(xs) + rest == PrintCode(xs[0]) + tail;
      RunOneCode(c, s, xs[0], tail);
      TakenMore(s, s.pending + [xs[0].b]);
      RunCodes(c, s.(pending := s.pending + [xs[0].b]), xs[1..], rest);
      assert s.pending + [xs[0].b] + BytesOf(xs[1..]) == s.pending + BytesOf(xs);
    }
  }

  /** Text of the document proper, with nothing waiting. */
  predicate Ready(s: Sem) {
    Clear(s) && Visible(s) && Capture(s).None?
  }

  /** The decoding of `bytes` by the page, or by Windows-1252 where the page rejects them. */
  function PageText(c: Codec, page: int, bytes: seq<byte>): seq<byte> {
    if c.decode(page, bytes).Some? then c.decode(page, bytes).value else c.windows1252(bytes)
  }

  /** Where a run of code-page bytes ends: at a brace or at ordinary text. */
  predicate EndsRun(rest: seq<byte>) {
    rest != [] && (rest[0] == '{' as int || rest[0] == '}' as int || IsPlain(rest[0]))
  }

  lemma FlushedText(c: Codec, s: Sem, bytes: seq<byte>)
    requires Ready(s) && bytes != []
    ensures var page := if s.Top().font in s.fonts then s.fonts[s.Top().font] else s.enc;
      && FlushPending(c, s.(pending := bytes)) == s.(out := s.out + PageText(c, page, bytes))
      && FlushHighRune(FlushPending(c, s.(pending := bytes))) == FlushPending(c, s.(pending := bytes))
  {
    assert Capture(s.(pending := bytes)) == Capture(s);
  }

  /** The end of the run writes it; nothing that follows takes it back. */
  lemma RunEndsRun(c: Codec, s: Sem, bytes: seq<byte>, rest: seq<byte>)
    requires Ready(s) && bytes != [] && EndsRun(rest)
    ensures var page := if s.Top().font in s.fonts then s.fonts[s.Top().font] else s.enc;
      s.out + PageText(c, page, bytes) <= Run(c, s.(pending := bytes), Ground, rest).out
  {
    var t := s.(pending := bytes);
    var f := FlushPending(c, t);
    FlushedText(c, s, bytes);
    var next := if IsPlain(rest[0]) then Emit(c, t, [rest[0]]) else if rest[0] == '{' as int then Enter(f) else Leave(f);
    assert f.out <= next.out by {
      if IsPlain(rest[0]) {
        assert Visible(f);
      }
    }
    if IsPlain(rest[0]) {
      RunPlainByte(c, t, rest);
    } else {
      RunDispatch(c, t, rest);
    }
    RunGrows(c, next, Ground, rest[1..]);
    hide Run, FlushPending, PageText;
  }

  /**
   * Bytes of code-page text come out decoded by the page of the font in use, if it has one, else by that of the
   * document, and by Windows-1252 if that page rejects them.
   */
  lemma CodePageText(c: Codec, s: Sem, xs: seq<Code>, rest: seq<byte>)
    requires Ready(s) && xs != [] && AreCodes(xs) && EndsRun(rest)
    ensures var page := if s.Top().font in s.fonts then s.fonts[s.Top().font] else s.enc;
      s.out + PageText(c, page, BytesOf(xs)) <= Run(c, s, Ground, PrintCodes(xs) + rest).out
  {
    assert [] + BytesOf(xs) == BytesOf(xs);
    hide Run, Visible, Capture, PageText, EndsRun;
    RunCodes(c, s, xs, rest);
    RunEndsRun(c, s, BytesOf(xs), rest);
  }

  /** The words before which a run is written out, with parameters that make them do so. */
  predicate EndingWord(s: Sem, name: string, param: Option<Param>) {
    || (name == "f" && param.Some? && param.value != s.Top().font)
    || (name == "deff" && param.Some?) || (name == "ansicpg" && param.Some?)
    || (name == "v") || (name == "u" && param.Some?)
  }

  lemma EndingWords(c: Codec, s: Sem, name: string, param: Option<Param>)
    requires EndingWord(s, name, param)
    ensures IsName(name) && !Classify(name).Bin?
    ensures FlushPending(c, s).out
         <= ControlWord(c, s, Classify(name), if param.Some? then param.value else 0, param.Some?).out
  {
    var n := if param.Some? then param.value else 0;
    EndingWordIs(name);
    hide Classify, FlushPending, UnicodeWord;
    if name == "u" {
      UnicodeFlushes(c, s, n);
    }
  }

  lemma EndingWordIs(name: string)
    requires name in {"f", "deff", "ansicpg", "v", "u"}
    ensures IsName(name)
    ensures Classify(name) == match name case "f" => Font case "deff" => Deff case "ansicpg" => AnsiCpg case "v" => Hidden case _ => Unicode
  {
  }

  lemma UnicodeFlushes(c: Codec, s: Sem, value: int)
    ensures FlushPending(c, s).out <= UnicodeWord(c, s, value).out
  {
    FlushGrows(c, FlushPending(c, s));
    hide FlushPending, CodeUnit, RuneString, Combine;
  }

  /** A change of the font or the page comes too late for the bytes before it: they are written first. */
  lemma PageChangesLater(c: Codec, s: Sem, xs: seq<Code>, name: string, param: Option<Param>, rest: seq<byte>)
    requires Ready(s) && xs != [] && AreCodes(xs) && EndingWord(s, name, param)
    ensures IsName(name)
    ensures var page := if s.Top().font in s.fonts then s.fonts[s.Top().font] else s.enc;
      s.out + PageText(c, page, BytesOf(xs)) <= Run(c, s, Ground, PrintCodes(xs) + (PrintWord(name, param, true) + rest)).out
  {
    var t := s.(pending := BytesOf(xs));
    assert [] + BytesOf(xs) == BytesOf(xs);
    EndingWords(c, t, name, param);
    FlushedText(c, s, BytesOf(xs));
    var n := if param.Some? then param.value else 0;
    var next := ControlWord(c, t, Classify(name), n, param.Some?);
    hide Run, FlushPending, ControlWord, Classify, PageText, Visible, Capture, IsName, EndingWord;
    RunCodes(c, s, xs, PrintWord(name, param, true) + rest);
    RunWritten(c, t, name, param, true, rest);
    RunGrows(c, next, Ground, rest);
  }

  /** A document that says nothing about code pages is Windows-1252. */
  lemma DefaultPage(c: Codec, xs: seq<Code>, rest: seq<byte>)
    requires xs != [] && AreCodes(xs) && EndsRun(rest)
    ensures PageText(c, 1252, BytesOf(xs)) <= Run(c, Init(), Ground, PrintCodes(xs) + rest).out
  {
    CodePageText(c, Init(), xs, rest);
    assert [] + PageText(c, 1252, BytesOf(xs)) == PageText(c, 1252, BytesOf(xs));
  }

  // ---- the words that choose the page ---------------------------------------------------------------------

  /** `s` with another font in use. */
  function WithFont(s: Sem, font: int): Sem {
    s.SetTop(s.Top().(font := font))
  }

  lemma {:induction false} SameInfo(a: seq<Group>, b: seq<Group>)
    requires |a| == |b| && forall i | 0 <= i < |a| :: a[i].dest == b[i].dest
    ensures InInfo(a) == InInfo(b)
    decreases |a|
  {
    if a != [] {
      SameInfo(a[..|a| - 1], b[..|b| - 1]);
    }
  }

  lemma WithFontReady(s: Sem, font: int)
    requires Ready(s)
    ensures Ready(WithFont(s, font)) && WithFont(s, font).Top().font == font
  {
    SameInfo(s.stack, WithFont(s, font).stack);
  }

  lemma WordF(c: Codec, s: Sem, n: Param)
    requires Clear(s)
    ensures IsName("f") && !Classify("f").Bin? && ControlWord(c, s, Classify("f"), n, true) == WithFont(s, n)
  {
    assert Classify("f") == Font;
    assert s.stack[|s.stack| - 1 := s.Top()] == s.stack;
  }

  lemma WordPlain(c: Codec, s: Sem)
    requires Clear(s)
    ensures IsName("plain") && !Classify("plain").Bin?
    ensures ControlWord(c, s, Classify("plain"), 0, false) == WithFont(s, s.defaultFont)
  {
    assert Classify("plain") == RtfLexer.Word.Plain;
    assert s.stack[|s.stack| - 1 := s.Top()] == s.stack;
  }

  lemma WordDeff(c: Codec, s: Sem, n: Param)
    requires Clear(s)
    ensures IsName("deff") && !Classify("deff").Bin?
    ensures ControlWord(c, s, Classify("deff"), n, true) == WithFont(s, n).(defaultFont := n)
  {
    assert Classify("deff") == Deff;
  }

  function WithPage(s: Sem, n: Param): Sem {
    s.(enc := if n in CODE_PAGES then n else 1252)
  }

  lemma WordAnsi(c: Codec, s: Sem, n: Param)
    requires Clear(s)
    ensures IsName("ansicpg") && !Classify("ansicpg").Bin?
    ensures ControlWord(c, s, Classify("ansicpg"), n, true) == WithPage(s, n)
  {
    assert Classify("ansicpg") == AnsiCpg;
    hide CODE_PAGES;
  }

  lemma ReadyWith(s: Sem, t: Sem)
    requires Ready(s) && t == s.(enc := t.enc, defaultFont := t.defaultFont, fonts := t.fonts)
    ensures Ready(t) && Clear(s)
  {
    assert Capture(t) == Capture(s);
  }

  /** Text in a font without a page of its own is decoded by the page `\ansicpg` names, or by Windows-1252 if it is unknown. */
  lemma DocumentPage(c: Codec, s: Sem, n: Param, xs: seq<Code>, rest: seq<byte>)
    requires Ready(s) && s.Top().font !in s.fonts && xs != [] && AreCodes(xs) && EndsRun(rest)
    ensures IsName("ansicpg")
    ensures s.out + PageText(c, if n in CODE_PAGES then n else 1252, BytesOf(xs))
         <= Run(c, s, Ground, PrintWord("ansicpg", Some(n), true) + (PrintCodes(xs) + rest)).out
  {
    var t := WithPage(s, n);
    assert t.Top() == s.Top() && t.fonts == s.fonts && t.out == s.out;
    assert t == s.(enc := t.enc) && t.enc == if n in CODE_PAGES then n else 1252;
    hide *;
    ReadyWith(s, t);
    WordAnsi(c, s, n);
    RunWritten(c, s, "ansicpg", Some(n), true, PrintCodes(xs) + rest);
    CodePageText(c, t, xs, rest);
  }

  /** `\plain` goes back to the font of `\deff`, whatever font was in use since. */
  lemma PlainPage(c: Codec, s: Sem, n: Param, m: Param, xs: seq<Code>, rest: seq<byte>)
    requires Ready(s) && xs != [] && AreCodes(xs) && EndsRun(rest)
    ensures IsName("deff") && IsName("f") && IsName("plain")
    ensures s.out + PageText(c, if n in s.fonts then s.fonts[n] else s.enc, BytesOf(xs))
         <= Run(c, s, Ground,
                PrintWord("deff", Some(n), true)
                + (PrintWord("f", Some(m), true) + (PrintWord("plain", None, true) + (PrintCodes(xs) + rest)))).out
  {
    var d := WithFont(s, n).(defaultFont := n);
    var f := WithFont(d, m);
    assert f.defaultFont == n && WithFont(f, n).out == s.out && WithFont(f, n).fonts == s.fonts && WithFont(f, n).enc == s.enc;
    hide *;
    WithFontReady(s, n);
    ReadyWith(WithFont(s, n), d);
    WithFontReady(d, m);
    WithFontReady(f, n);
    ReadyWith(s, s);
    ReadyWith(d, d);
    ReadyWith(f, f);
    var codes := PrintCodes(xs) + rest;
    WordDeff(c, s, n);
    WordF(c, d, m);
    WordPlain(c, f);
    RunWritten(c, s, "deff", Some(n), true, PrintWord("f", Some(m), true) + (PrintWord("plain", None, true) + codes));
    RunWritten(c, d, "f", Some(m), true, PrintWord("plain", None, true) + codes);
    RunWritten(c, f, "plain", None, true, codes);
    CodePageText(c, WithFont(f, n), xs, rest);
  }

  // ---- the font table -------------------------------------------------------------------------------------

  /** `{\fonttbl{\fN\fcharsetC name}}` */
  function PrintFontTable(n: Param, charset: Param, name: seq<Item>): seq<byte>
    requires AreItems(name)
  {
    assert IsName("fonttbl") && IsName("f") && IsName("fcharset");
    Braced(PrintWord("fonttbl", None, false)
           + Braced(PrintWord("f", Some(n), false) + (PrintWord("fcharset", Some(charset), true) + PrintItems(name))))
  }

  /** `s` in the table, and in one of its fonts. */
  function InTable(s: Sem): Sem {
    s.(stack := s.stack + [s.Top().(skip := true, dest := Ignored("fonttbl"), font := -1)])
  }

  function InEntry(s: Sem, n: int): Sem {
    InTable(s).(stack := InTable(s).stack + [InTable(s).Top().(font := n)])
  }

  lemma OpenTable(c: Codec, s: Sem)
    requires Clear(s)
    ensures IsName("fonttbl") && !Classify("fonttbl").Bin?
    ensures ControlWord(c, Enter(s), Classify("fonttbl"), 0, false) == InTable(s)
    ensures Clear(InTable(s)) && Leave(InTable(s)) == s
  {
    assert Classify("fonttbl") == Destination("fonttbl");
    assert InTable(s).stack[..|s.stack|] == s.stack;
    assert Enter(s).stack[|s.stack| := InTable(s).Top()] == InTable(s).stack;
  }

  lemma OpenEntry(c: Codec, s: Sem, n: Param, charset: Param)
    requires Clear(s) && n >= 0 && charset in FONT_CHARSETS
    ensures IsName("f") && !Classify("f").Bin? && IsName("fcharset") && !Classify("fcharset").Bin?
    ensures ControlWord(c, Enter(InTable(s)), Classify("f"), n, true) == InEntry(s, n)
    ensures ControlWord(c, InEntry(s, n), Classify("fcharset"), charset, true)
         == InEntry(s.(fonts := s.fonts[n := FONT_CHARSETS[charset]]), n)
  {
    var t := InTable(s);
    assert Classify("f").Font? && Classify("fcharset").FCharset?;
    assert Enter(t).stack[|t.stack| := InEntry(s, n).Top()] == InEntry(s, n).stack;
    CharsetPages(charset);
  }

  lemma CharsetPages(charset: int)
    requires charset in FONT_CHARSETS
    ensures EncodingForCodePage(FONT_CHARSETS[charset]) == FONT_CHARSETS[charset]
  {
  }

  /** The name of a font is no text. */
  lemma EntryIsSilent(s: Sem, n: int, b: seq<byte>)
    requires Clear(s)
    ensures Write(InEntry(s, n), b) == InEntry(s, n) && Clear(InEntry(s, n)) && Leave(InEntry(s, n)) == InTable(s)
  {
    assert InEntry(s, n).stack[..|InTable(s).stack|] == InTable(s).stack;
  }

  lemma UnspacedEnds(rest: seq<byte>)
    requires rest != [] && (rest[0] == '{' as int || rest[0] == '\\' as int)
    ensures Ends(None, rest) && forall n :: Ends(Some(n), rest)
  {
  }

  lemma RunEntry(c: Codec, s: Sem, n: Param, charset: Param, name: seq<Item>, rest: seq<byte>)
    requires Clear(s) && n >= 0 && charset in FONT_CHARSETS && AreItems(name) && IsName("f") && IsName("fcharset")
    ensures Run(c, InTable(s), Ground,
                Braced(PrintWord("f", Some(n), false) + (PrintWord("fcharset", Some(charset), true) + PrintItems(name))) + rest)
         == Run(c, InTable(s.(fonts := s.fonts[n := FONT_CHARSETS[charset]])), Ground, rest)
  {
    var t := s.(fonts := s.fonts[n := FONT_CHARSETS[charset]]);
    var a, b, x, end := PrintWord("f", Some(n), false), PrintWord("fcharset", Some(charset), true), PrintItems(name), ['}' as int] + rest;
    assert b[0] == '\\' as int;
    assert Clear(t);
    hide *;
    OpenTable(c, s);
    OpenEntry(c, s, n, charset);
    RunOpened(c, InTable(s), a + (b + x), rest);
    Reassociate(a, b + x, end);
    Reassociate(b, x, end);
    UnspacedEnds(b + (x + end));
    RunWritten(c, Enter(InTable(s)), "f", Some(n), false, b + (x + end));
    RunWritten(c, InEntry(s, n), "fcharset", Some(charset), true, x + end);
    EntryIsSilent(t, n, TextOfAll(name));
    RunItems(c, InEntry(t, n), name, end);
    RunClosed(c, InEntry(t, n), rest);
  }

  /** A font table declares the page of a font, and leaves nothing else behind. */
  lemma FontTable(c: Codec, s: Sem, n: Param, charset: Param, name: seq<Item>, rest: seq<byte>)
    requires Clear(s) && n >= 0 && charset in FONT_CHARSETS && AreItems(name)
    ensures Run(c, s, Ground, PrintFontTable(n, charset, name) + rest)
         == Run(c, s.(fonts := s.fonts[n := FONT_CHARSETS[charset]]), Ground, rest)
  {
    var t := s.(fonts := s.fonts[n := FONT_CHARSETS[charset]]);
    assert IsName("fonttbl") && IsName("f") && IsName("fcharset");
    var a, end := PrintWord("fonttbl", None, false), ['}' as int] + rest;
    var x := Braced(PrintWord("f", Some(n), false) + (PrintWord("fcharset", Some(charset), true) + PrintItems(name)));
    assert PrintFontTable(n, charset, name) == Braced(a + x);
    assert x[0] == '{' as int && Clear(t);
    hide *;
    OpenTable(c, s);
    OpenTable(c, t);
    RunOpened(c, s, a + x, rest);
    Reassociate(a, x, end);
    UnspacedEnds(x + end);
    RunWritten(c, Enter(s), "fonttbl", None, false, x + end);
    RunEntry(c, s, n, charset, name, end);
    RunClosed(c, InTable(t), rest);
  }

  /** Text in a font that the table declares with a charset is decoded by the page of that charset. */
  lemma DeclaredFont(c: Codec, s: Sem, n: Param, charset: Param, name: seq<Item>, xs: seq<Code>, rest: seq<byte>)
    requires Ready(s) && n >= 0 && charset in FONT_CHARSETS && AreItems(name)
    requires xs != [] && AreCodes(xs) && EndsRun(rest)
    ensures IsName("f")
    ensures s.out + PageText(c, FONT_CHARSETS[charset], BytesOf(xs))
         <= Run(c, s, Ground, PrintFontTable(n, charset, name) + (PrintWord("f", Some(n), true) + (PrintCodes(xs) + rest))).out
  {
    var t := s.(fonts := s.fonts[n := FONT_CHARSETS[charset]]);
    assert WithFont(t, n).fonts == t.fonts && WithFont(t, n).out == s.out;
    hide *;
    ReadyWith(s, t);
    ReadyWith(t, t);
    WithFontReady(t, n);
    WordF(c, t, n);
    var codes := PrintCodes(xs) + rest;
    FontTable(c, s, n, charset, name, PrintWord("f", Some(n), true) + codes);
    RunWritten(c, t, "f", Some(n), true, codes);
    CodePageText(c, WithFont(t, n), xs, rest);
  }
}
