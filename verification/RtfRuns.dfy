/** The reference decoder over whole runs of bytes: what each fast path of internal/parser/rtf/decode.go may skip. */
module RtfRuns {
  import opened Base
  import opened RtfLexer
  import opened RtfText
  import Utf8

  lemma {:induction false} ApplyAllConcat(c: Codec, s: Sem, a: seq<Event>, b: seq<Event>)
    ensures ApplyAll(c, s, a + b) == ApplyAll(c, ApplyAll(c, s, a), b)
    decreases |a|
  {
    if a == [] {
      assert a + b == b;
    } else {
      assert (a + b)[1..] == a[1..] + b;
      ApplyAllConcat(c, Apply(c, s, a[0]), a[1..], b);
    }
  }

  lemma ApplyOne(c: Codec, s: Sem, e: Event)
    ensures ApplyAll(c, s, [e]) == Apply(c, s, e)
  {
    assert [e][1..] == [];
    assert ApplyAll(c, Apply(c, s, e), []) == Apply(c, s, e);
  }

  /** Reading one byte that completes at most one event. */
  lemma RunByte(c: Codec, s: Sem, lex: Lex, rest: seq<byte>)
    requires rest != []
    ensures var l := Advance(lex, rest[0]);
      && (l.events == [] ==> Run(c, s, lex, rest) == Run(c, s, l.next, rest[1..]))
      && (|l.events| == 1 ==> Run(c, s, lex, rest) == Run(c, Apply(c, s, l.events[0]), l.next, rest[1..]))
  {
    var l := Advance(lex, rest[0]);
    if |l.events| == 1 {
      ApplyOne(c, s, l.events[0]);
      assert l.events == [l.events[0]];
    }
  }

  lemma RunEnd(c: Codec, s: Sem, lex: Lex)
    requires AtEnd(lex) == []
    ensures Run(c, s, lex, []) == Flush(c, s)
  {
  }

  /** A control word that its next byte ends: the word acts first, then that byte is read as if nothing preceded it. */
  lemma RunWord(c: Codec, s: Sem, lex: Lex, word: Lexed, rest: seq<byte>)
    requires word.next.Ground? || word.next.Raw?
    requires |word.events| == 1
    requires rest == [] ==> AtEnd(lex) == word.events
    requires rest != [] ==> Advance(lex, rest[0]) == Delimit(word, rest[0])
    ensures Run(c, s, lex, rest)
         == Run(c, Apply(c, s, word.events[0]), word.next,
                if rest != [] && rest[0] == ' ' as int then rest[1..] else rest)
  {
    var s1 := Apply(c, s, word.events[0]);
    if rest != [] {
      assert Advance(word.next, rest[0]) == Outside(word.next, rest[0]);
    }
    hide Apply, ApplyAll, Advance, Outside, Flush;
    ApplyOne(c, s, word.events[0]);
    assert word.events == [word.events[0]];
    if rest != [] {
      if rest[0] != ' ' as int {
        ApplyAllConcat(c, s, word.events, Outside(word.next, rest[0]).events);
      }
    } else {
      assert AtEnd(word.next) == [];
    }
  }

  lemma {:induction false} RunRaw(c: Codec, s: Sem, left: nat, rest: seq<byte>)
    ensures Run(c, s, Raw(left), rest) == Run(c, s, Ground, rest[Min(left, |rest|)..])
    decreases left
  {
    if rest == [] {
    } else if left == 0 {
      assert Outside(Raw(0), rest[0]) == Outside(Ground, rest[0]);
    } else {
      RunByte(c, s, Raw(left), rest);
      if left > 1 {
        RunRaw(c, s, left - 1, rest[1..]);
        assert rest[1..][Min(left - 1, |rest| - 1)..] == rest[Min(left, |rest|)..];
      }
    }
  }

  /** Source white space does nothing. */
  lemma {:induction false} RunWhite(c: Codec, s: Sem, n: nat, rest: seq<byte>)
    requires n <= |rest| && forall i | 0 <= i < n :: rest[i] < 0x20
    ensures Run(c, s, Ground, rest) == Run(c, s, Ground, rest[n..])
    decreases n
  {
    if n > 0 {
      RunByte(c, s, Ground, rest);
      RunWhite(c, s, n - 1, rest[1..]);
      assert rest[1..][n - 1..] == rest[n..];
    } else {
      assert rest[n..] == rest;
    }
  }

  predicate IsPlain(b: byte) {
    0x20 <= b < 0x80 && b != '\\' as int && b != '{' as int && b != '}' as int
  }

  lemma FlushTwice(c: Codec, s: Sem)
    ensures FlushPending(c, FlushPending(c, s)) == FlushPending(c, s)
  {
  }

  lemma WriteTwice(s: Sem, a: seq<byte>, b: seq<byte>)
    ensures Write(Write(s, a), b) == Write(s, a + b)
  {
    var field := Capture(s);
    var s1 := Write(s, a);
    assert s.out + a + b == s.out + (a + b);
    if field.Some? {
      var f := field.value;
      assert s.info[f] + a + b == s.info[f] + (a + b);
      assert s.info[f := s.info[f] + a][f := s.info[f] + a + b] == s.info[f := s.info[f] + (a + b)];
    }
    assert Capture(s1) == field;
  }

  /** `plainRun`: a run of ordinary bytes written at once is the same bytes written one by one. */
  lemma EmitTwice(c: Codec, s: Sem, a: seq<byte>, b: seq<byte>)
    ensures Emit(c, Emit(c, s, a), b) == Emit(c, s, a + b)
  {
    assert Flush(c, Emit(c, s, a)) == Emit(c, s, a);
    WriteTwice(Flush(c, s), a, b);
  }

  lemma RunPlainByte(c: Codec, s: Sem, rest: seq<byte>)
    requires rest != [] && IsPlain(rest[0]) && s.skipChars <= 0
    ensures Run(c, s, Ground, rest) == Run(c, Emit(c, s, [rest[0]]), Ground, rest[1..])
  {
    RunByte(c, s, Ground, rest);
    hide Run;
  }

  lemma EmitKeepsSkip(c: Codec, s: Sem, b: seq<byte>)
    ensures Emit(c, s, b).skipChars == s.skipChars
  {
  }

  lemma {:induction false} RunPlain(c: Codec, s: Sem, n: nat, rest: seq<byte>)
    requires 0 < n <= |rest| && forall i | 0 <= i < n :: IsPlain(rest[i])
    requires s.skipChars <= 0
    ensures Run(c, s, Ground, rest) == Run(c, Emit(c, s, rest[..n]), Ground, rest[n..])
    decreases n
  {
    hide Run, Flush, Write, Emit;
    RunPlainByte(c, s, rest);
    EmitKeepsSkip(c, s, [rest[0]]);
    var s1 := Emit(c, s, [rest[0]]);
    if n == 1 {
      assert rest[..1] == [rest[0]];
    } else {
      RunPlain(c, s1, n - 1, rest[1..]);
      assert rest[1..][..n - 1] == rest[1..n] && rest[1..][n - 1..] == rest[n..];
      EmitTwice(c, s, [rest[0]], rest[1..n]);
      assert [rest[0]] + rest[1..n] == rest[..n];
    }
  }

  function Buffer(s: Sem, run: seq<byte>): Sem {
    if run != [] && (Capture(s).Some? || Visible(s)) then s.(pending := s.pending + run) else s
  }

  lemma BufferTwice(s: Sem, a: seq<byte>, b: seq<byte>)
    ensures Buffer(Buffer(s, a), b) == Buffer(s, a + b)
  {
    var s1 := Buffer(s, a);
    assert Capture(s1) == Capture(s) && Visible(s1) == Visible(s);
    if a == [] {
      assert a + b == b;
    } else if b == [] {
      assert a + b == a;
    } else {
      assert s.pending + a + b == s.pending + (a + b);
    }
  }

  /** What one byte outside control sequences does, case by case. */
  lemma RunDispatch(c: Codec, s: Sem, rest: seq<byte>)
    requires rest != []
    ensures rest[0] == '{' as int
        ==> Run(c, s, Ground, rest) == Run(c, Enter(FlushPending(c, s)), Ground, rest[1..])
    ensures rest[0] == '}' as int
        ==> Run(c, s, Ground, rest) == Run(c, Leave(FlushPending(c, s)), Ground, rest[1..])
    ensures rest[0] == '\\' as int ==> Run(c, s, Ground, rest) == Run(c, s, Slash, rest[1..])
    ensures (IsPlain(rest[0]) || rest[0] >= 0x80) && s.skipChars > 0
        ==> Run(c, s, Ground, rest) == Run(c, s.(skipChars := s.skipChars - 1), Ground, rest[1..])
    ensures rest[0] >= 0x80 && s.skipChars <= 0
        ==> Run(c, s, Ground, rest) == Run(c, Buffer(s, [rest[0]]), Ground, rest[1..])
  {
    RunByte(c, s, Ground, rest);
    hide Run;
  }

  /** The two digits of a hex escape. */
  lemma RunHex(c: Codec, s: Sem, rest: seq<byte>)
    ensures |rest| < 2 ==> Run(c, s, Quote, rest) == Flush(c, s)
    ensures |rest| >= 2
        ==> Run(c, s, Quote, rest) == Run(c, HexByte(s, HexValue(rest[0], rest[1])), Ground, rest[2..])
  {
    if rest == [] {
      RunEnd(c, s, Quote);
    } else {
      RunByte(c, s, Quote, rest);
      if |rest| == 1 {
        assert rest[1..] == [];
        RunEnd(c, s, HalfHex(rest[0]));
      } else {
        RunByte(c, s, HalfHex(rest[0]), rest[1..]);
        hide Run;
        assert rest[1..][1..] == rest[2..];
      }
    }
  }

  function HexByte(s: Sem, value: Option<byte>): Sem {
    if value.None? then s
    else if s.skipChars > 0 then s.(skipChars := s.skipChars - 1)
    else s.(pending := s.pending + [value.value])
  }

  lemma RunSlash(c: Codec, s: Sem, rest: seq<byte>)
    ensures rest == [] ==> Run(c, s, Slash, rest) == Flush(c, s)
    ensures rest != [] && rest[0] == '\'' as int ==> Run(c, s, Slash, rest) == Run(c, s, Quote, rest[1..])
    ensures rest != [] && IsLetter(rest[0])
        ==> Run(c, s, Slash, rest) == Run(c, s, Name([rest[0] as char]), rest[1..])
    ensures rest != [] && rest[0] != '\'' as int && !IsLetter(rest[0])
        ==> Run(c, s, Slash, rest) == Run(c, ControlSymbol(c, s, rest[0]), Ground, rest[1..])
  {
    if rest == [] {
      RunEnd(c, s, Slash);
    } else {
      RunByte(c, s, Slash, rest);
    }
  }

  lemma RunLetter(c: Codec, s: Sem, name: string, rest: seq<byte>)
    requires rest != [] && IsLetter(rest[0])
    ensures Run(c, s, Name(name), rest) == Run(c, s, Name(name + [rest[0] as char]), rest[1..])
  {
    RunByte(c, s, Name(name), rest);
  }

  lemma RunSign(c: Codec, s: Sem, name: string, rest: seq<byte>)
    requires rest != [] && rest[0] == '-' as int
    ensures Run(c, s, Name(name), rest) == Run(c, s, Number(name, -1, 0, false), rest[1..])
  {
    RunByte(c, s, Name(name), rest);
  }

  lemma RunDigit(c: Codec, s: Sem, lex: Lex, name: string, sign: int, param: int, digits: bool, rest: seq<byte>)
    requires rest != [] && IsDigit(rest[0])
    requires lex == Number(name, sign, param, digits) || (lex == Name(name) && sign == 1 && param == 0)
    ensures Run(c, s, lex, rest) == Run(c, s, Number(name, sign, AddDigit(param, rest[0]), true), rest[1..])
  {
    RunByte(c, s, lex, rest);
  }

  lemma Int64Small(n: int)
    requires -0x8000_0000_0000_0000 <= n < 0x8000_0000_0000_0000
    ensures Int64(n) == n
  {
  }

  lemma WordEnds(lex: Lex, name: string, sign: int, param: int, digits: bool, b: byte)
    requires !IsDigit(b)
    requires lex == Number(name, sign, param, digits)
          || (lex == Name(name) && sign == 1 && param == 0 && !digits && !IsLetter(b) && b != '-' as int)
    ensures Advance(lex, b) == Delimit(EndWord(name, Int64(sign * param), digits), b)
  {
    Int64Small(0);
    hide Classify, Int64;
  }

  /** The first byte that is neither letter, sign nor digit ends a control word, and so does the end of the input. */
  lemma RunEndWord(c: Codec, s: Sem, lex: Lex, name: string, sign: int, param: int, digits: bool, rest: seq<byte>)
    requires rest != [] ==> !IsDigit(rest[0])
    requires lex == Number(name, sign, param, digits)
          || (lex == Name(name) && sign == 1 && param == 0 && !digits
              && (rest != [] ==> !IsLetter(rest[0]) && rest[0] != '-' as int))
    ensures Run(c, s, lex, rest)
         == Run(c, Apply(c, s, Control(Classify(name), Int64(sign * param), digits)),
                EndWord(name, Int64(sign * param), digits).next,
                if rest != [] && rest[0] == ' ' as int then rest[1..] else rest)
    ensures param == 0 ==> Int64(sign * param) == 0
  {
    hide Run, Apply, Classify, Int64, Advance, Delimit, IsLetter, IsDigit;
    Int64Small(0);
    if rest != [] {
      WordEnds(lex, name, sign, param, digits, rest[0]);
    }
    RunWord(c, s, lex, EndWord(name, Int64(sign * param), digits), rest);
  }

  lemma {:induction false} RunDropHigh(c: Codec, s: Sem, n: nat, rest: seq<byte>)
    requires n <= |rest| && n <= s.skipChars && forall i | 0 <= i < n :: rest[i] >= 0x80
    ensures Run(c, s, Ground, rest) == Run(c, s.(skipChars := s.skipChars - n), Ground, rest[n..])
    decreases n
  {
    hide Run;
    if n == 0 {
      assert rest[n..] == rest;
    } else {
      RunDispatch(c, s, rest);
      RunDropHigh(c, s.(skipChars := s.skipChars - 1), n - 1, rest[1..]);
      assert rest[1..][n - 1..] == rest[n..];
    }
  }

  lemma {:induction false} RunBufferHigh(c: Codec, s: Sem, n: nat, rest: seq<byte>)
    requires n <= |rest| && s.skipChars <= 0 && forall i | 0 <= i < n :: rest[i] >= 0x80
    ensures Run(c, s, Ground, rest) == Run(c, Buffer(s, rest[..n]), Ground, rest[n..])
    decreases n
  {
    hide Run;
    if n == 0 {
      assert rest[n..] == rest;
    } else {
      RunDispatch(c, s, rest);
      RunBufferHigh(c, Buffer(s, [rest[0]]), n - 1, rest[1..]);
      assert rest[1..][n - 1..] == rest[n..];
      BufferTwice(s, [rest[0]], rest[1..][..n - 1]);
      assert [rest[0]] + rest[1..][..n - 1] == rest[..n];
    }
  }

  /** `highRun`: the bytes a fallback swallows come off the front of the run, the rest is buffered at once. */
  lemma RunHigh(c: Codec, s: Sem, n: nat, drop: nat, rest: seq<byte>)
    requires n <= |rest| && forall i | 0 <= i < n :: rest[i] >= 0x80
    requires drop == if s.skipChars > 0 then Min(s.skipChars, n) else 0
    ensures Run(c, s, Ground, rest)
         == Run(c, Buffer(s.(skipChars := s.skipChars - drop), rest[drop..n]), Ground, rest[n..])
  {
    hide Run;
    var s1 := s.(skipChars := s.skipChars - drop);
    var mid := rest[drop..];
    assert Run(c, s, Ground, rest) == Run(c, s1, Ground, mid) by {
      if s.skipChars > 0 {
        RunDropHigh(c, s, drop, rest);
      } else {
        assert mid == rest && s1 == s;
      }
    }
    assert mid[..n - drop] == rest[drop..n] && mid[n - drop..] == rest[n..];
    if drop < n {
      RunBufferHigh(c, s1, n - drop, mid);
    } else {
      assert rest[drop..n] == [] && mid == rest[n..];
    }
  }

  lemma FlushGrows(c: Codec, s: Sem)
    ensures s.out <= FlushPending(c, s).out
    ensures s.out <= FlushHighRune(s).out
    ensures s.out <= FlushHighRune(FlushPending(c, s)).out
  {
  }

  lemma EmitGrows(c: Codec, s: Sem, b: seq<byte>)
    ensures s.out <= Emit(c, s, b).out
  {
    FlushGrows(c, s);
  }

  lemma UnicodeGrows(c: Codec, s: Sem, value: int)
    ensures s.out <= UnicodeWord(c, s, value).out
  {
    FlushGrows(c, s);
    FlushGrows(c, FlushPending(c, s));
  }

  lemma ControlGrows(c: Codec, s: Sem, word: Word, param: int, hasParam: bool)
    ensures s.out <= ControlWord(c, s, word, param, hasParam).out
  {
    hide FlushPending, Emit, UnicodeWord, InInfo, Utf8.Encode;
    FlushGrows(c, s);
    match word
    case Unicode => UnicodeGrows(c, s, param);
    case Character(r) => EmitGrows(c, s, Utf8.Encode(r));
    case _ =>
  }

  lemma SymbolGrows(c: Codec, s: Sem, b: byte)
    ensures s.out <= ControlSymbol(c, s, b).out
  {
    hide FlushPending, Emit, CountsAsFallback, Utf8.Encode;
    FlushGrows(c, s);
    EmitGrows(c, s, [b]);
    EmitGrows(c, s, Utf8.Encode(0xA0));
    EmitGrows(c, s, ['-' as int]);
    EmitGrows(c, s, [10]);
  }

  lemma ApplyGrows(c: Codec, s: Sem, e: Event)
    ensures s.out <= Apply(c, s, e).out
  {
    hide FlushPending, Emit, ControlSymbol, ControlWord;
    match e
    case Open => FlushGrows(c, s);
    case Close => FlushGrows(c, s);
    case Text(b) => EmitGrows(c, s, [b]);
    case High(_) =>
    case Hex(_) =>
    case Symbol(b) => SymbolGrows(c, s, b);
    case Control(word, param, hasParam) => ControlGrows(c, s, word, param, hasParam);
  }

  lemma {:induction false} ApplyAllGrows(c: Codec, s: Sem, events: seq<Event>)
    ensures s.out <= ApplyAll(c, s, events).out
    decreases |events|
  {
    if events != [] {
      ApplyGrows(c, s, events[0]);
      ApplyAllGrows(c, Apply(c, s, events[0]), events[1..]);
    }
  }

  /** Text once emitted is never taken back. */
  lemma {:induction false} RunGrows(c: Codec, s: Sem, lex: Lex, rest: seq<byte>)
    ensures s.out <= Run(c, s, lex, rest).out
    decreases |rest|
  {
    if rest == [] {
      ApplyAllGrows(c, s, AtEnd(lex));
    } else {
      var l := Advance(lex, rest[0]);
      ApplyAllGrows(c, s, l.events);
      RunGrows(c, ApplyAll(c, s, l.events), l.next, rest[1..]);
    }
  }
}
