/**
 * `\uN` control words (internal/parser/rtf/decode.go:225-269, 427-450): any sequence of UTF-16 code units, written
 * with either sign and any number of fallback characters, decodes to the UTF-8 form of its text.
 */
module RtfUnicode {
  import opened Base
  import opened RtfLexer
  import opened RtfText
  import opened RtfRuns
  import Utf8

  type Unit = u: int | 0 <= u < 0x10000

  // ---- UTF-16, as section 2 of RFC 2781 defines it --------------------------------------------------------

  function Encode16(r: Utf8.Scalar): seq<Unit> {
    if r < 0x10000 then [r]
    else [0xD800 + (r - 0x10000) / 0x400, 0xDC00 + (r - 0x10000) % 0x400]
  }

  function EncodeAll16(rs: seq<Utf8.Scalar>): seq<Unit> {
    if rs == [] then [] else Encode16(rs[0]) + EncodeAll16(rs[1..])
  }

  /** Every code unit sequence as text; a surrogate without its partner stands for U+FFFD. */
  function Decode16(us: seq<Unit>): seq<Utf8.Scalar>
    decreases |us|
  {
    if us == [] then []
    else if IsHighSurrogate(us[0]) then
      if |us| > 1 && IsLowSurrogate(us[1]) then [Combine(us[0], us[1])] + Decode16(us[2..])
      else [Utf8.REPLACEMENT] + Decode16(us[1..])
    else if IsLowSurrogate(us[0]) then [Utf8.REPLACEMENT] + Decode16(us[1..])
    else [us[0]] + Decode16(us[1..])
  }

  /** A surrogate without its partner stands for U+FFFD, any other unit for itself. */
  lemma UnpairedUnits(u: Unit, us: seq<Unit>)
    ensures !IsHighSurrogate(u) && !IsLowSurrogate(u) ==> Decode16([u] + us) == [u] + Decode16(us)
    ensures IsLowSurrogate(u) ==> Decode16([u] + us) == [0xFFFD] + Decode16(us)
    ensures IsHighSurrogate(u) && (us == [] || !IsLowSurrogate(us[0])) ==> Decode16([u] + us) == [0xFFFD] + Decode16(us)
  {
    assert ([u] + us)[1..] == us;
  }

  lemma {:induction false} RoundTrip16(rs: seq<Utf8.Scalar>)
    ensures Decode16(EncodeAll16(rs)) == rs
    ensures rs != [] ==> var us := EncodeAll16(rs); us != [] && !IsHighSurrogate(us[|us| - 1])
  {
    if rs != [] {
      RoundTrip16(rs[1..]);
      var us := EncodeAll16(rs);
      var tail := EncodeAll16(rs[1..]);
      if rs[0] < 0x10000 {
        assert us[1..] == tail;
      } else {
        assert us[2..] == tail;
      }
      if rs[1..] != [] {
        assert us[|us| - 1] == tail[|tail| - 1];
      }
    }
  }

  // ---- the written form -----------------------------------------------------------------------------------

  function Decimal(n: nat): (d: seq<byte>)
    ensures |d| > 0 && IsDigit(d[0])
  {
    if n < 10 then ['0' as int + n] else Decimal(n / 10) + ['0' as int + n % 10]
  }

  /**
   * What counts as one fallback character: a byte of text, a hex escape, a control symbol, or raw data. Line breaks
   * and other source white space may stand between them and do not count.
   */
  datatype Fallback =
    | Char(b: byte)
    | HexChar(hi: byte, lo: byte)
    | SymbolChar(b: byte)
    | Binary(data: seq<byte>)
    | White(b: byte)

  predicate IsFallback(f: Fallback) {
    match f
    case Char(b) => IsPlain(b) || b >= 0x80
    case HexChar(hi, lo) => HexValue(hi, lo).Some?
    case SymbolChar(b) => CountsAsFallback(b)
    case Binary(data) => 0 < |data| < 0x8000_0000_0000_0000
    case White(b) => b < 0x20
  }

  /** How many fallback characters there are. */
  function Counted(fs: seq<Fallback>): nat {
    if fs == [] then 0 else (if fs[0].White? then 0 else 1) + Counted(fs[1..])
  }

  const BACKSLASH_BIN: seq<byte> := ['\\' as int, 'b' as int, 'i' as int, 'n' as int]

  function PrintFallback(f: Fallback): seq<byte> {
    match f
    case Char(b) => [b]
    case HexChar(hi, lo) => ['\\' as int, '\'' as int, hi, lo]
    case SymbolChar(b) => ['\\' as int, b]
    case Binary(data) => BACKSLASH_BIN + Decimal(|data|) + [' ' as int] + data
    case White(b) => [b]
  }

  function PrintFallbacks(fs: seq<Fallback>): seq<byte> {
    if fs == [] then [] else PrintFallback(fs[0]) + PrintFallbacks(fs[1..])
  }

  /** RTF writes a code unit signed or unsigned. */
  type Number16 = n: int | -0x10000 <= n < 0x10000

  /** One `\uN` word: its number, whether a space ends it, and its fallback characters with the white space among and after them. */
  datatype Word = Word(value: Number16, spaced: bool, fallback: seq<Fallback>)

  const BACKSLASH_U: seq<byte> := ['\\' as int, 'u' as int]

  function Written(value: int): seq<byte> {
    if value < 0 then ['-' as int] + Decimal(-value) else Decimal(value)
  }

  function Delimiter(spaced: bool): seq<byte> {
    if spaced then [' ' as int] else []
  }

  function Print(w: Word): seq<byte> {
    BACKSLASH_U + Written(w.value) + Delimiter(w.spaced) + PrintFallbacks(w.fallback)
  }

  function PrintAll(ws: seq<Word>): seq<byte> {
    if ws == [] then [] else Print(ws[0]) + PrintAll(ws[1..])
  }

  /** The code unit a written number stands for. */
  function UnitOf(w: Word): Unit {
    if w.value < 0 then w.value + 0x10000 else w.value
  }

  function Units(ws: seq<Word>): (us: seq<Unit>)
    ensures |us| == |ws|
  {
    if ws == [] then [] else [UnitOf(ws[0])] + Units(ws[1..])
  }

  /** A number without a space after it must not run into another digit, or lose a space of the text. */
  predicate Stops(bytes: seq<byte>) {
    bytes == [] || (!IsDigit(bytes[0]) && bytes[0] != ' ' as int)
  }

  /** `ws` is written under `\ucN` with `uc` fallback characters a word, and `rest` follows. */
  predicate WellWritten(ws: seq<Word>, uc: int, rest: seq<byte>) {
    ws == [] ||
    var w := ws[0];
    && Counted(w.fallback) == Max(uc, 0)
    && (forall i | 0 <= i < |w.fallback| :: IsFallback(w.fallback[i]))
    && (w.spaced || Stops(PrintFallbacks(w.fallback) + PrintAll(ws[1..]) + rest))
    && WellWritten(ws[1..], uc, rest)
  }

  // ---- reading it back ------------------------------------------------------------------------------------

  /** The digits of `n`, read after the name or the sign, leave `n` in the automaton. */
  lemma {:induction false} RunDecimal(c: Codec, s: Sem, lex: Lex, name: string, sign: int, n: nat, rest: seq<byte>)
    requires n < 0x8000_0000_0000_0000
    requires lex == Number(name, sign, 0, false) || (lex == Name(name) && sign == 1)
    ensures Run(c, s, lex, Decimal(n) + rest) == Run(c, s, Number(name, sign, n, true), rest)
    decreases n
  {
    hide Run, Int64, AddDigit;
    if n < 10 {
      RunDigit(c, s, lex, name, sign, 0, false, Decimal(n) + rest);
      AddSmallDigit(0, n, n);
      assert (Decimal(n) + rest)[1..] == rest;
    } else {
      var digit := '0' as int + n % 10;
      assert Decimal(n) + rest == Decimal(n / 10) + ([digit] + rest);
      RunDecimal(c, s, lex, name, sign, n / 10, [digit] + rest);
      RunDigit(c, s, Number(name, sign, n / 10, true), name, sign, n / 10, true, [digit] + rest);
      AddSmallDigit(n / 10, n % 10, n);
      assert ([digit] + rest)[1..] == rest;
    }
  }

  lemma AddSmallDigit(high: nat, digit: nat, n: nat)
    requires digit < 10 && n == high * 10 + digit && n < 0x8000_0000_0000_0000
    ensures AddDigit(high, '0' as int + digit) == n
  {
    Int64Small(n);
  }

  lemma RunUnicodeName(c: Codec, s: Sem, digits: seq<byte>)
    ensures Run(c, s, Ground, BACKSLASH_U + digits) == Run(c, s, Name("u"), digits)
  {
    hide Run;
    var bytes := BACKSLASH_U + digits;
    RunDispatch(c, s, bytes);
    RunSlash(c, s, bytes[1..]);
    assert bytes[1..][1..] == digits;
  }

  lemma RunWrittenNumber(c: Codec, s: Sem, value: int, rest: seq<byte>) returns (sign: int, n: nat)
    requires -0x10000 <= value < 0x10000
    ensures sign * n == value
    ensures Run(c, s, Name("u"), Written(value) + rest) == Run(c, s, Number("u", sign, n, true), rest)
  {
    hide Run, Decimal;
    if value < 0 {
      sign, n := -1, -value;
      RunSign(c, s, "u", Written(value) + rest);
      assert (Written(value) + rest)[1..] == Decimal(n) + rest;
      RunDecimal(c, s, Number("u", -1, 0, false), "u", -1, n, rest);
    } else {
      sign, n := 1, value;
      RunDecimal(c, s, Name("u"), "u", 1, n, rest);
    }
  }

  lemma Regroup(a: seq<byte>, b: seq<byte>, d: seq<byte>, e: seq<byte>)
    ensures a + b + d + e == a + (b + (d + e))
  {
  }

  /** A whole `\uN` word, up to and including the space that may end it. */
  lemma RunUnicodeWord(c: Codec, s: Sem, value: int, spaced: bool, rest: seq<byte>)
    requires -0x10000 <= value < 0x10000
    requires spaced || Stops(rest)
    ensures Run(c, s, Ground, BACKSLASH_U + Written(value) + Delimiter(spaced) + rest)
         == Run(c, UnicodeWord(c, s, value), Ground, rest)
  {
    var tail := Delimiter(spaced) + rest;
    assert if spaced then tail != [] && tail[0] == ' ' as int && tail[1..] == rest else tail == rest;
    Regroup(BACKSLASH_U, Written(value), Delimiter(spaced), rest);
    hide Run, UnicodeWord, Written, Int64, Delimiter, BACKSLASH_U;
    RunUnicodeName(c, s, Written(value) + tail);
    var sign, n := RunWrittenNumber(c, s, value, tail);
    EndUnicodeWord(c, s, sign, n, value, tail);
  }

  lemma ApplyUnicode(c: Codec, s: Sem, value: int)
    ensures Apply(c, s, Control(Classify("u"), value, true)) == UnicodeWord(c, s, value)
    ensures EndWord("u", value, true).next == Ground
  {
    hide UnicodeWord;
  }

  lemma EndUnicodeWord(c: Codec, s: Sem, sign: int, n: nat, value: int, tail: seq<byte>)
    requires value == sign * n && -0x10000 <= value < 0x10000
    requires tail == [] || !IsDigit(tail[0])
    ensures Run(c, s, Number("u", sign, n, true), tail)
         == Run(c, UnicodeWord(c, s, value), Ground, if tail != [] && tail[0] == ' ' as int then tail[1..] else tail)
  {
    hide Run, UnicodeWord, Int64, Apply, Classify, EndWord;
    Int64Small(value);
    ApplyUnicode(c, s, value);
    RunEndWord(c, s, Number("u", sign, n, true), "u", sign, n, true, tail);
  }

  /** Raw data after its length. */
  lemma RunBinary(c: Codec, s: Sem, data: seq<byte>, rest: seq<byte>)
    requires s.skipChars > 0 && 0 < |data| < 0x8000_0000_0000_0000
    ensures Run(c, s, Ground, PrintFallback(Binary(data)) + rest) == Run(c, s.(skipChars := s.skipChars - 1), Ground, rest)
  {
    hide Run, Decimal, Int64, Apply, Classify, EndWord, BACKSLASH_BIN, PrintFallback;
    var n, tail := |data|, [' ' as int] + (data + rest);
    PrintBinary(data, rest);
    RunBinName(c, s, Decimal(n) + tail);
    RunDecimal(c, s, Name("bin"), "bin", 1, n, tail);
    Int64Small(n);
    RunEndWord(c, s, Number("bin", 1, n, true), "bin", 1, n, true, tail);
    assert tail[1..] == data + rest;
    ApplyBin(c, s, n);
    RunRaw(c, s.(skipChars := s.skipChars - 1), n, data + rest);
    assert (data + rest)[n..] == rest;
  }

  lemma PrintBinary(data: seq<byte>, rest: seq<byte>)
    ensures PrintFallback(Binary(data)) + rest == BACKSLASH_BIN + (Decimal(|data|) + ([' ' as int] + (data + rest)))
  {
    RegroupAll(PrintFallback(Binary(data)), BACKSLASH_BIN, Decimal(|data|), [' ' as int], data, rest);
  }

  lemma RegroupAll(all: seq<byte>, a: seq<byte>, b: seq<byte>, d: seq<byte>, e: seq<byte>, rest: seq<byte>)
    requires all == a + b + d + e
    ensures all + rest == a + (b + (d + (e + rest)))
  {
    Reassociate(a + b + d, e, rest);
    Regroup(a, b, d, e + rest);
  }

  lemma Reassociate(a: seq<byte>, b: seq<byte>, d: seq<byte>)
    ensures a + b + d == a + (b + d)
  {
  }

  lemma RunBinName(c: Codec, s: Sem, tail: seq<byte>)
    ensures Run(c, s, Ground, BACKSLASH_BIN + tail) == Run(c, s, Name("bin"), tail)
  {
    hide Run;
    var bytes := BACKSLASH_BIN + tail;
    RunDispatch(c, s, bytes);
    RunSlash(c, s, bytes[1..]);
    RunLetter(c, s, "b", bytes[2..]);
    RunLetter(c, s, "bi", bytes[3..]);
    assert bytes[1..][1..] == bytes[2..] && bytes[2..][1..] == bytes[3..] && bytes[3..][1..] == tail;
    assert [bytes[1] as char] == "b" && "b" + [bytes[2] as char] == "bi" && "bi" + [bytes[3] as char] == "bin";
  }

  lemma ApplyBin(c: Codec, s: Sem, n: nat)
    requires n > 0 && s.skipChars > 0
    ensures Apply(c, s, Control(Classify("bin"), n, true)) == s.(skipChars := s.skipChars - 1)
    ensures EndWord("bin", n, true).next == Raw(n)
  {
  }

  /** Each fallback character is dropped whole. */
  lemma RunOneFallback(c: Codec, s: Sem, f: Fallback, rest: seq<byte>)
    requires s.skipChars > 0 && IsFallback(f) && !f.White?
    ensures Run(c, s, Ground, PrintFallback(f) + rest) == Run(c, s.(skipChars := s.skipChars - 1), Ground, rest)
  {
    hide Run, BACKSLASH_BIN;
    var bytes := PrintFallback(f) + rest;
    match f
    case Char(b) =>
      RunDispatch(c, s, bytes);
      assert bytes[1..] == rest;
    case HexChar(hi, lo) =>
      RunDispatch(c, s, bytes);
      RunSlash(c, s, bytes[1..]);
      RunHex(c, s, bytes[1..][1..]);
      assert bytes[1..][1..][2..] == rest;
    case SymbolChar(b) =>
      RunDispatch(c, s, bytes);
      RunSlash(c, s, bytes[1..]);
      assert bytes[1..][1..] == rest;
    case Binary(data) => RunBinary(c, s, data, rest);
  }

  lemma {:induction false} RunFallback(c: Codec, s: Sem, fallback: seq<Fallback>, rest: seq<byte>)
    requires Max(s.skipChars, 0) == Counted(fallback)
    requires forall i | 0 <= i < |fallback| :: IsFallback(fallback[i])
    ensures Run(c, s, Ground, PrintFallbacks(fallback) + rest) == Run(c, s.(skipChars := Min(s.skipChars, 0)), Ground, rest)
    decreases |fallback|
  {
    hide Run, IsFallback, PrintFallback;
    if fallback == [] {
      assert [] + rest == rest;
    } else {
      var tail := PrintFallbacks(fallback[1..]) + rest;
      assert PrintFallbacks(fallback) + rest == PrintFallback(fallback[0]) + tail;
      if fallback[0].White? {
        RunOneWhite(c, s, fallback[0], tail);
        RunFallback(c, s, fallback[1..], rest);
      } else {
        RunOneFallback(c, s, fallback[0], tail);
        RunFallback(c, s.(skipChars := s.skipChars - 1), fallback[1..], rest);
      }
    }
  }

  lemma RunOneWhite(c: Codec, s: Sem, f: Fallback, rest: seq<byte>)
    requires f.White? && IsFallback(f)
    ensures Run(c, s, Ground, PrintFallback(f) + rest) == Run(c, s, Ground, rest)
  {
    hide Run;
    RunWhite(c, s, 1, [f.b] + rest);
    assert ([f.b] + rest)[1..] == rest;
  }

  /** The effect of one written code unit together with its fallback. */
  function UnitStep(s: Sem, u: Unit): Sem {
    if IsHighSurrogate(u) then FlushHighRune(s).(highRune := u)
    else if IsLowSurrogate(u) && IsHighSurrogate(s.highRune)
    then Write(s.(highRune := 0), Utf8.Encode(Combine(s.highRune, u)))
    else Write(FlushHighRune(s), RuneString(u))
  }

  lemma UnicodeWordIsStep(c: Codec, s: Sem, w: Word)
    requires s.pending == [] && (s.highRune == 0 || IsHighSurrogate(s.highRune))
    ensures UnicodeWord(c, s, w.value) == UnitStep(s, UnitOf(w)).(skipChars := s.Top().uc)
  {
    hide Write, Utf8.Encode;
    assert CodeUnit(w.value) == UnitOf(w);
  }

  lemma StepKeepsSkip(s: Sem, u: Unit)
    ensures UnitStep(s, u).skipChars == s.skipChars
  {
  }

  lemma RunWrittenUnit(c: Codec, s: Sem, w: Word, rest: seq<byte>)
    requires s.pending == [] && s.skipChars == Min(s.Top().uc, 0) && (s.highRune == 0 || IsHighSurrogate(s.highRune))
    requires Counted(w.fallback) == Max(s.Top().uc, 0) && forall i | 0 <= i < |w.fallback| :: IsFallback(w.fallback[i])
    requires w.spaced || Stops(PrintFallbacks(w.fallback) + rest)
    ensures Run(c, s, Ground, Print(w) + rest) == Run(c, UnitStep(s, UnitOf(w)), Ground, rest)
  {
    hide Run, UnicodeWord, UnitStep, Stops, Written, Delimiter, IsFallback, PrintFallbacks;
    UnicodeWordIsStep(c, s, w);
    StepKeepsSkip(s, UnitOf(w));
    var head := BACKSLASH_U + Written(w.value) + Delimiter(w.spaced);
    var tail := PrintFallbacks(w.fallback) + rest;
    assert Print(w) + rest == head + tail;
    RunUnicodeWord(c, s, w.value, w.spaced, tail);
    RunFallback(c, UnicodeWord(c, s, w.value), w.fallback, rest);
  }

  /** The code units still to be decided: a pending high surrogate and what follows it. */
  function Pending(s: Sem): seq<Unit> {
    if IsHighSurrogate(s.highRune) then [s.highRune] else []
  }

  /** Moving one unit from the input into the state keeps the text that state and input stand for. */
  lemma UnitStepText(s: Sem, u: Unit, us: seq<Unit>)
    requires s.highRune == 0 || IsHighSurrogate(s.highRune)
    ensures var s1 := UnitStep(s, u);
      && (s1.highRune == 0 || IsHighSurrogate(s1.highRune))
      && s1.(highRune := 0, info := s.info, out := s.out) == s.(highRune := 0)
      && Write(s1.(highRune := 0), Utf8.EncodeAll(Decode16(Pending(s1) + us)))
         == Write(s.(highRune := 0), Utf8.EncodeAll(Decode16(Pending(s) + [u] + us)))
  {
    hide Utf8.Encode, Write, Capture, Combine;
    var base := s.(highRune := 0);
    var all := Pending(s) + [u] + us;
    var s1 := UnitStep(s, u);
    if IsHighSurrogate(u) {
      assert Pending(s1) + us == [u] + us;
      if s.highRune != 0 {
        assert all[1..] == [u] + us;
        FirstWritten(base, Utf8.REPLACEMENT, [u] + us);
        WriteFrame(base, Utf8.Encode(Utf8.REPLACEMENT), u);
      } else {
        assert all == [u] + us;
      }
    } else if IsLowSurrogate(u) && IsHighSurrogate(s.highRune) {
      assert all[2..] == us;
      FirstWritten(base, Combine(s.highRune, u), us);
      WriteFrame(base, Utf8.Encode(Combine(s.highRune, u)), 0);
      assert Pending(s1) + us == us;
    } else {
      var r: Utf8.Scalar := if IsLowSurrogate(u) then Utf8.REPLACEMENT else u;
      assert RuneString(u) == Utf8.Encode(r);
      WriteFrame(base, Utf8.Encode(Utf8.REPLACEMENT), 0);
      var flushed := FlushHighRune(s);
      WriteFrame(flushed, Utf8.Encode(r), 0);
      assert Pending(s1) + us == us;
      assert ([u] + us)[1..] == us;
      FirstWritten(flushed, r, us);
      if s.highRune != 0 {
        assert all[1..] == [u] + us;
        FirstWritten(base, Utf8.REPLACEMENT, [u] + us);
      } else {
        assert all == [u] + us;
      }
    }
  }

  /** Writing one scalar and then the text of `us` is writing both at once. */
  lemma FirstWritten(s: Sem, r: Utf8.Scalar, us: seq<Unit>)
    ensures Write(s, Utf8.EncodeAll([r] + Decode16(us)))
         == Write(Write(s, Utf8.Encode(r)), Utf8.EncodeAll(Decode16(us)))
  {
    Utf8.EncodeAllCons(r, Decode16(us));
    WriteTwice(s, Utf8.Encode(r), Utf8.EncodeAll(Decode16(us)));
  }

  /** A write touches nothing but the text and the captured field. */
  lemma WriteFrame(s: Sem, b: seq<byte>, highRune: int)
    ensures Write(s, b).(info := s.info, out := s.out) == s
    ensures Write(s.(highRune := highRune), b) == Write(s, b).(highRune := highRune)
  {
    assert Capture(s.(highRune := highRune)) == Capture(s);
  }

  lemma FirstPrinted(ws: seq<Word>, rest: seq<byte>)
    requires ws != []
    ensures PrintAll(ws) + rest == Print(ws[0]) + (PrintAll(ws[1..]) + rest)
    ensures PrintFallbacks(ws[0].fallback) + PrintAll(ws[1..]) + rest
         == PrintFallbacks(ws[0].fallback) + (PrintAll(ws[1..]) + rest)
  {
    assert PrintAll(ws) == Print(ws[0]) + PrintAll(ws[1..]);
    hide *;
    Reassociate(Print(ws[0]), PrintAll(ws[1..]), rest);
    Reassociate(PrintFallbacks(ws[0].fallback), PrintAll(ws[1..]), rest);
  }

  lemma FirstWell(ws: seq<Word>, uc: int, rest: seq<byte>)
    requires ws != [] && WellWritten(ws, uc, rest)
    ensures WellWritten(ws[1..], uc, rest) && Counted(ws[0].fallback) == Max(uc, 0)
    ensures forall i | 0 <= i < |ws[0].fallback| :: IsFallback(ws[0].fallback[i])
    ensures ws[0].spaced || Stops(PrintFallbacks(ws[0].fallback) + PrintAll(ws[1..]) + rest)
  {
    hide Counted, IsFallback, Stops, PrintFallbacks, PrintAll;
  }

  lemma FirstUnit(s: Sem, ws: seq<Word>)
    requires ws != []
    ensures Pending(s) + [UnitOf(ws[0])] + Units(ws[1..]) == Pending(s) + Units(ws)
    ensures LeftPending(s.highRune, ws)
         == LeftPending(if IsHighSurrogate(UnitOf(ws[0])) then UnitOf(ws[0]) else 0, ws[1..])
  {
    hide Pending, UnitOf, IsHighSurrogate;
    assert Units(ws) == [UnitOf(ws[0])] + Units(ws[1..]);
  }

  lemma TakeUnit(s: Sem, u: Unit, us: seq<Unit>, all: seq<Unit>)
    requires s.highRune == 0 || IsHighSurrogate(s.highRune)
    requires Pending(s) + [u] + us == Pending(s) + all
    ensures var s1 := UnitStep(s, u);
      && (s1.highRune == 0 || IsHighSurrogate(s1.highRune)) && s1.highRune == (if IsHighSurrogate(u) then u else 0)
      && s1.stack == s.stack && s1.Top() == s.Top() && s1.pending == s.pending && s1.skipChars == s.skipChars
      && Write(s1.(highRune := 0), Utf8.EncodeAll(Decode16(Pending(s1) + us)))
         == Write(s.(highRune := 0), Utf8.EncodeAll(Decode16(Pending(s) + all)))
  {
    hide UnitStep, Write, Decode16, Utf8.EncodeAll, Pending, IsHighSurrogate;
    UnitStepText(s, u, us);
    StepSurrogate(s, u);
  }

  /** The high surrogate left pending after `ws`. */
  function LeftPending(high: int, ws: seq<Word>): int
    decreases ws
  {
    if ws == [] then high
    else
      var u := UnitOf(ws[0]);
      LeftPending(if IsHighSurrogate(u) then u else 0, ws[1..])
  }

  lemma {:induction false} LastIsLeft(high: int, ws: seq<Word>)
    requires ws != []
    ensures var last := UnitOf(ws[|ws| - 1]); LeftPending(high, ws) == if IsHighSurrogate(last) then last else 0
    decreases ws
  {
    var u := UnitOf(ws[0]);
    var next := if IsHighSurrogate(u) then u else 0;
    if |ws| > 1 {
      LastIsLeft(next, ws[1..]);
    }
  }

  /** The code units from a state in which nothing but a high surrogate is pending. */
  lemma {:induction false} RunSettledUnits(c: Codec, s: Sem, ws: seq<Word>, rest: seq<byte>) returns (end: Sem)
    requires s.pending == [] && s.skipChars == Min(s.Top().uc, 0) && (s.highRune == 0 || IsHighSurrogate(s.highRune))
    requires WellWritten(ws, s.Top().uc, rest)
    ensures Run(c, s, Ground, PrintAll(ws) + rest) == Run(c, end, Ground, rest)
    ensures FlushHighRune(end) == Write(s.(highRune := 0), Utf8.EncodeAll(Decode16(Pending(s) + Units(ws))))
    ensures end.highRune == LeftPending(s.highRune, ws)
    decreases |ws|
  {
    hide *;
    if ws == [] {
      end := s;
      NoWords(s, rest);
    } else {
      FirstWell(ws, s.Top().uc, rest);
      FirstUnit(s, ws);
      FirstPrinted(ws, rest);
      var s1 := UnitStep(s, UnitOf(ws[0]));
      TakeUnit(s, UnitOf(ws[0]), Units(ws[1..]), Units(ws));
      RunWrittenUnit(c, s, ws[0], PrintAll(ws[1..]) + rest);
      end := RunSettledUnits(c, s1, ws[1..], rest);
    }
  }

  lemma NoWords(s: Sem, rest: seq<byte>)
    requires s.highRune == 0 || IsHighSurrogate(s.highRune)
    ensures PrintAll([]) + rest == rest && LeftPending(s.highRune, []) == s.highRune
    ensures FlushHighRune(s) == Write(s.(highRune := 0), Utf8.EncodeAll(Decode16(Pending(s) + Units([]))))
  {
    hide FlushHighRune, Write, Pending, Decode16, Utf8.EncodeAll;
    NoUnits(s);
  }

  lemma NoUnits(s: Sem)
    requires s.highRune == 0 || IsHighSurrogate(s.highRune)
    ensures FlushHighRune(s) == Write(s.(highRune := 0), Utf8.EncodeAll(Decode16(Pending(s) + [])))
  {
    assert Pending(s) + [] == Pending(s);
    if s.highRune == 0 {
      assert Write(s, []) == s by {
        assert s.out + [] == s.out;
        if Capture(s).Some? {
          var f := Capture(s).value;
          assert s.info[f] + [] == s.info[f];
          assert s.info[f := s.info[f]] == s.info;
        }
      }
    } else {
      var us := Pending(s);
      assert us[1..] == [];
      assert Decode16(us) == [Utf8.REPLACEMENT];
      assert [Utf8.REPLACEMENT] == [Utf8.REPLACEMENT] + [];
      Utf8.EncodeAllCons(Utf8.REPLACEMENT, []);
      assert Utf8.EncodeAll([Utf8.REPLACEMENT]) == Utf8.Encode(Utf8.REPLACEMENT);
    }
  }

  lemma StepSurrogate(s: Sem, u: Unit)
    ensures UnitStep(s, u).highRune == if IsHighSurrogate(u) then u else 0
  {
    hide Utf8.Encode;
  }

  /** A `\uN` word ends the run of code-page bytes and the fallback before it. */
  function Settled(c: Codec, s: Sem): (r: Sem)
    ensures r.pending == [] && r.stack == s.stack && r.highRune == s.highRune
  {
    FlushPending(c, s).(skipChars := Min(s.Top().uc, 0))
  }

  lemma FlushKeepsSkip(s: Sem, k: int)
    ensures FlushHighRune(s.(skipChars := k)) == FlushHighRune(s).(skipChars := k)
  {
    WriteKeepsSkip(s.(highRune := 0), k);
    hide Write, Utf8.Encode;
  }

  lemma UnicodeWordSettles(c: Codec, s: Sem, value: int)
    ensures UnicodeWord(c, s, value) == UnicodeWord(c, Settled(c, s), value)
  {
    hide FlushHighRune, Write, Utf8.Encode, CodeUnit, Combine, RuneString;
    var f := FlushPending(c, s);
    var settled := Settled(c, s);
    var k := settled.skipChars;
    assert FlushPending(c, settled) == settled;
    hide FlushPending;
    WriteKeepsSkip(f.(highRune := 0), k);
    WriteKeepsSkip(FlushHighRune(f), k);
    FlushKeepsSkip(f, k);
  }

  lemma RunSettled(c: Codec, s: Sem, w: Word, rest: seq<byte>)
    requires w.spaced || Stops(PrintFallbacks(w.fallback) + rest)
    ensures Run(c, s, Ground, Print(w) + rest) == Run(c, Settled(c, s), Ground, Print(w) + rest)
  {
    hide Run, UnicodeWord, Settled, Stops, Written, Delimiter, PrintFallbacks;
    var tail := PrintFallbacks(w.fallback) + rest;
    assert Print(w) + rest == BACKSLASH_U + Written(w.value) + Delimiter(w.spaced) + tail;
    UnicodeWordSettles(c, s, w.value);
    RunUnicodeWord(c, s, w.value, w.spaced, tail);
    RunUnicodeWord(c, Settled(c, s), w.value, w.spaced, tail);
  }

  lemma WriteKeepsSkip(s: Sem, k: int)
    ensures forall b :: Write(s.(skipChars := k), b) == Write(s, b).(skipChars := k)
  {
    assert Capture(s.(skipChars := k)) == Capture(s);
  }

  /** Every sequence of written code units, well-formed or not, is written out as the text it stands for. */
  lemma RunUnits(c: Codec, s: Sem, ws: seq<Word>, rest: seq<byte>) returns (end: Sem)
    requires s.highRune == 0 || IsHighSurrogate(s.highRune)
    requires WellWritten(ws, s.Top().uc, rest)
    ensures Run(c, s, Ground, PrintAll(ws) + rest) == Run(c, end, Ground, rest)
    ensures ws == [] ==> end == s
    ensures ws != [] ==>
              FlushHighRune(end)
              == Write(Settled(c, s).(highRune := 0), Utf8.EncodeAll(Decode16(Pending(s) + Units(ws))))
    ensures end.highRune == if ws == [] then s.highRune
                            else var last := UnitOf(ws[|ws| - 1]); if IsHighSurrogate(last) then last else 0
  {
    hide Run, Write, Utf8.Encode, Print, Stops, PrintFallbacks, FlushHighRune, Decode16;
    if ws == [] {
      end := s;
      assert PrintAll(ws) + rest == rest;
    } else {
      FirstPrinted(ws, rest);
      RunSettled(c, s, ws[0], PrintAll(ws[1..]) + rest);
      end := RunSettledUnits(c, Settled(c, s), ws, rest);
      LastIsLeft(s.highRune, ws);
    }
  }

  /**
   * Any text, written as `\uN` words with surrogate pairs for its supplementary characters, comes out as exactly
   * its UTF-8 form, after whatever code-page bytes are pending.
   */
  lemma UnicodeText(c: Codec, s: Sem, rs: seq<Utf8.Scalar>, ws: seq<Word>, rest: seq<byte>)
    requires s.highRune == 0 && WellWritten(ws, s.Top().uc, rest)
    requires Units(ws) == EncodeAll16(rs)
    ensures Run(c, s, Ground, PrintAll(ws) + rest)
         == Run(c, if ws == [] then s else Write(Settled(c, s), Utf8.EncodeAll(rs)), Ground, rest)
  {
    var end := RunUnits(c, s, ws, rest);
    RoundTrip16(rs);
    assert Pending(s) + Units(ws) == Units(ws);
    hide Run, Write, Utf8.Encode, Settled, Decode16, PrintAll, WellWritten;
    if ws != [] {
      LastUnit(ws);
      assert rs != [];
      assert Settled(c, s).(highRune := 0) == Settled(c, s);
      assert end.highRune == 0;
      assert FlushHighRune(end) == end;
    }
  }

  lemma {:induction false} LastUnit(ws: seq<Word>)
    requires ws != []
    ensures Units(ws)[|ws| - 1] == UnitOf(ws[|ws| - 1])
  {
    if |ws| > 1 {
      LastUnit(ws[1..]);
    }
  }
}
