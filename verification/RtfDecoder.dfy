/**
 * `textDecoder` of internal/parser/rtf/decode.go: the buffered decoder with its run-consuming fast paths, proved
 * to produce what the one-byte-at-a-time reference decoder produces, for every way the input reaches the buffer.
 */
module RtfDecoder {
  import opened Base
  import opened RtfLexer
  import opened RtfText
  import opened RtfRuns
  import Utf8

  const BUFFER_SIZE := 32768

  /** How much each non-empty read of the source has to offer. */
  type Size = n: nat | n > 0 witness 1

  /** How much of the input the first `k` reads of the source have delivered. */
  function Delivered(input: seq<byte>, source: nat -> Size, k: nat): (n: nat)
    ensures n <= |input|
  {
    if k == 0 then 0
    else
      var before := Delivered(input, source, k - 1);
      before + Min(source(k - 1), Min(BUFFER_SIZE, |input| - before))
  }

  ghost predicate DeliveryEnd(input: seq<byte>, source: nat -> Size, n: nat) {
    exists k: nat :: Delivered(input, source, k) == n
  }

  /** Where the deliveries of the whole input end. */
  ghost function Cuts(input: seq<byte>, source: nat -> Size): set<nat> {
    set n | 0 < n <= |input| && DeliveryEnd(input, source, n)
  }

  lemma {:induction false} DeliveredGrows(input: seq<byte>, source: nat -> Size, j: nat, k: nat)
    requires j <= k
    ensures Delivered(input, source, j) <= Delivered(input, source, k)
    decreases k - j
  {
    if j < k {
      DeliveredGrows(input, source, j, k - 1);
    }
  }

  /** No delivery ends strictly between the ends of two successive ones. */
  lemma NoCutBetween(input: seq<byte>, source: nat -> Size, k: nat, n: nat)
    requires n in Cuts(input, source)
    ensures n <= Delivered(input, source, k) || Delivered(input, source, k + 1) <= n
  {
    var j: nat :| Delivered(input, source, j) == n;
    if j <= k {
      DeliveredGrows(input, source, j, k);
    } else {
      DeliveredGrows(input, source, k + 1, j);
    }
  }

  /** No boundary between two deliveries of the source falls inside the byte order mark. */
  predicate BomWhole(input: seq<byte>, cuts: set<nat>) {
    Lead(input) + 1 !in cuts && Lead(input) + 2 !in cuts
  }

  /** The text and `\info` fields an input has when the source delivers it in pieces ending at `cuts`. */
  function Expected(c: Codec, input: seq<byte>, cuts: set<nat>): Sem {
    Decode(c, input, BomWhole(input, cuts))
  }

  datatype Mark = Undecided | Stripped | Kept

  lemma RestBefore(input: seq<byte>, pos: nat)
    requires 0 < pos <= |input|
    ensures input[pos - 1..] == [input[pos - 1]] + input[pos..]
  {
  }

  /**
   * The buffered reader: `input[pos..filled]` is in its buffer, the source still holds `input[filled..]` after
   * `chunks` reads. The ghost field records what became of the byte order mark.
   */
  class BufReader {
    const input: seq<byte>
    const source: nat -> Size
    var pos: nat
    var filled: nat
    var chunks: nat
    ghost var mark: Mark

    ghost predicate Valid()
      reads this
      ensures Valid() ==> pos <= filled <= |input|
    {
      && pos <= filled <= |input|
      && filled == Delivered(input, source, chunks)
      && (forall k | k in Ends() :: k <= pos || k >= filled)
      && (mark == Undecided ==> pos <= Lead(input))
      && (mark == Stripped ==> HasBom(input) && BomWhole(input, Ends()))
      && (mark == Kept ==> !HasBom(input) || !BomWhole(input, Ends()))
    }

    /** Where the deliveries end, those to come included. */
    ghost function Ends(): set<nat> {
      Cuts(input, source)
    }

    /** The bytes not consumed yet. */
    ghost function Rest(): seq<byte>
      reads this
    {
      if pos <= |input| then input[pos..] else []
    }

    constructor (input: seq<byte>, source: nat -> Size)
      ensures Valid() && this.input == input && this.source == source && pos == 0 && Rest() == input && mark == Undecided
    {
      this.input, this.source := input, source;
      pos, filled, chunks, mark := 0, 0, 0, Undecided;
    }

    /** Fills an empty buffer by one read of the source. */
    method Fill()
      requires Valid()
      modifies this`filled, this`chunks
      ensures Valid() && Rest() == old(Rest())
      ensures Rest() != [] <==> pos < filled
      ensures chunks == old(chunks) + if pos == old(filled) < |input| then 1 else 0
    {
      if pos == filled && filled < |input| {
        forall k | k in Ends() ensures k <= pos || k >= Delivered(input, source, chunks + 1) {
          NoCutBetween(input, source, chunks, k);
        }
        hide Cuts;
        filled := filled + Min(source(chunks), Min(BUFFER_SIZE, |input| - filled));
        chunks := chunks + 1;
      }
    }

    method ReadByte() returns (b: Option<byte>)
      requires Valid() && mark != Undecided
      modifies this`filled, this`chunks, this`pos
      ensures Valid()
      ensures b == (if old(Rest()) == [] then None else Some(old(Rest())[0]))
      ensures Rest() == (if old(Rest()) == [] then [] else old(Rest())[1..])
      ensures b.Some? ==> pos > 0 && input[pos - 1] == b.value && (pos in Ends() ==> pos == filled)
    {
      hide Ends, HasBom, BomWhole, Lead, Delivered;
      Fill();
      if pos < filled {
        b := Some(input[pos]);
        pos := pos + 1;
      } else {
        b := None;
      }
    }

    /** `UnreadByte`, right after a successful `ReadByte`. */
    method UnreadByte()
      requires Valid() && mark != Undecided && pos > 0 && (pos in Ends() ==> pos == filled)
      modifies this`pos
      ensures Valid() && Rest() == [input[old(pos) - 1]] + old(Rest())
    {
      hide HasBom, BomWhole, Lead;
      RestBefore(input, pos);
      pos := pos - 1;
    }

    /** How many of the buffered bytes, at least the next one, pass the test. */
    method CountRun(test: byte -> bool) returns (n: nat)
      requires Valid() && pos < filled && test(input[pos])
      ensures 1 <= n <= filled - pos && input[pos..pos + n] == Rest()[..n]
      ensures forall i {:trigger Rest()[i]} | 0 <= i < n :: test(Rest()[i])
    {
      hide HasBom, BomWhole, Lead;
      n := 1;
      while n < filled - pos && test(input[pos + n])
        invariant 1 <= n <= filled - pos
        invariant forall i {:trigger Rest()[i]} | 0 <= i < n :: test(Rest()[i])
      {
        assert Rest()[n] == input[pos + n];
        n := n + 1;
      }
    }

    method Discard(n: nat)
      requires Valid() && pos + n <= filled && (mark == Undecided ==> pos + n <= Lead(input))
      modifies this`pos
      ensures Valid() && Rest() == old(Rest())[n..]
    {
      pos := pos + n;
    }

    /** `io.CopyN` into the void: `n` bytes go, or as many as the input still has. */
    method Skip(n: nat)
      requires Valid() && mark != Undecided
      modifies this`filled, this`chunks, this`pos
      ensures Valid() && Rest() == old(Rest())[Min(n, |old(Rest())|)..]
    {
      hide HasBom, BomWhole, Lead, Ends, Delivered;
      var left := n;
      while left > 0 && pos < |input|
        invariant Valid() && left >= 0 && old(pos) <= pos
        invariant pos + Min(left, |input| - pos) == old(pos) + Min(n, |input| - old(pos))
        decreases |input| - pos
      {
        Fill();
        var k := Min(left, filled - pos);
        Discard(k);
        left := left - k;
      }
    }

    /** `step` on a buffer whose first byte is not white space: is there a whole byte order mark in it? */
    method StripMark() returns (stripped: bool)
      requires Valid() && mark == Undecided && pos < filled && input[pos] >= 0x20
      modifies this`pos, this`mark
      ensures Valid() && old(pos) == Lead(input)
      ensures stripped == (HasBom(input) && BomWhole(input, Ends()))
      ensures mark == (if stripped then Stripped else Kept)
      ensures pos == (if stripped then Lead(input) + |BOM| else old(pos))
    {
      assert pos == Lead(input);
      if filled >= pos + 3 {
        assert input[pos..filled][..3] == input[pos..][..3];
      }
      stripped := BOM <= input[pos..filled];
      if stripped {
        assert input[pos..][..3] == BOM;
        pos := pos + |BOM|;
        mark := Stripped;
      } else {
        assert HasBom(input) ==> filled < pos + 3 && filled in Ends() by {
          assert HasBom(input) ==> input[pos..][..3] == BOM;
        }
        mark := Kept;
      }
    }
  }

  class TextDecoder {
    const br: BufReader
    const codec: Codec
    var enc: int
    var defaultFont: int
    var fonts: map<int, int>
    var pending: seq<byte>
    var out: seq<byte>
    var stack: Stack
    var skipChars: int
    var highRune: int
    var info: map<string, seq<byte>>
    var infoStarted: set<string>
    var bomChecked: bool
    var done: bool

    /** What `Read` has handed out so far. */
    ghost var emitted: seq<byte>

    ghost function Abs(): Sem
      reads this
    {
      Sem(enc, defaultFont, fonts, pending, emitted + out, stack, skipChars, highRune, info, infoStarted)
    }

    /** What the whole input decodes to, as far as the fate of its byte order mark is known. */
    ghost function Goal(): Sem
      reads br
    {
      Decode(codec, br.input, br.mark == Stripped)
    }

    ghost predicate Valid()
      reads this, br
    {
      && br.Valid()
      && (done ==> Abs() == Expected(codec, br.input, br.Ends()))
      && (!done ==> bomChecked == (br.mark != Undecided))
      && (!done && bomChecked ==> Run(codec, Abs(), Ground, br.Rest()) == Goal())
      && (!done && !bomChecked ==> Abs() == Init())
    }

    constructor (codec: Codec, input: seq<byte>, source: nat -> Size)
      ensures Valid() && fresh(br) && emitted == [] && !done
      ensures this.codec == codec && br.input == input && br.source == source
    {
      this.codec := codec;
      br := new BufReader(input, source);
      enc, defaultFont, fonts := WINDOWS_1252, 0, map[];
      pending, out, emitted := [], [], [];
      stack := [Group(1, 0, false, false, Document, "")];
      skipChars, highRune, info, infoStarted := 0, 0, map[], {};
      bomChecked, done := false, false;
    }

    // ---- text output -----------------------------------------------------------------------------------

    method CaptureField() returns (field: Option<string>)
      ensures field == Capture(Abs())
    {
      var f := stack[|stack| - 1].infoField;
      var inside := ScanInInfo();
      if f == "" || !inside || f !in info {
        field := None;
      } else {
        field := Some(f);
      }
    }

    method ScanInInfo() returns (r: bool)
      ensures r == InInfo(stack)
    {
      var i := |stack| - 1;
      assert stack[..i + 1] == stack;
      while i >= 0
        invariant -1 <= i < |stack|
        invariant InInfo(stack) == InInfo(stack[..i + 1])
        decreases i
      {
        assert stack[..i + 1][..i] == stack[..i];
        match stack[i].dest {
          case Document =>
          case InfoBlock => return true;
          case Ignored(_) => return false;
        }
        i := i - 1;
      }
      r := false;
    }

    method WriteString(b: seq<byte>)
      modifies this`out, this`info
      ensures Abs() == Write(old(Abs()), b)
    {
      var field := CaptureField();
      if field.Some? {
        info := info[field.value := info[field.value] + b];
      }
      if !stack[|stack| - 1].skip && !stack[|stack| - 1].hidden {
        assert emitted + (out + b) == emitted + out + b;
        out := out + b;
      }
    }

    method FlushPendingBytes()
      modifies this`out, this`info, this`pending
      ensures Abs() == FlushPending(codec, old(Abs()))
    {
      if pending != [] {
        var raw := pending;
        pending := [];
        var font := stack[|stack| - 1].font;
        var page := if font in fonts then fonts[font] else enc;
        var decoded := codec.decode(page, raw);
        var text := if decoded.Some? then decoded.value else codec.windows1252(raw);
        WriteString(text);
      }
    }

    method FlushSurrogate()
      modifies this`out, this`info, this`highRune
      ensures Abs() == FlushHighRune(old(Abs()))
    {
      if highRune != 0 {
        highRune := 0;
        WriteString(Utf8.Encode(Utf8.REPLACEMENT));
      }
    }

    method EmitString(b: seq<byte>)
      modifies this`out, this`info, this`pending, this`highRune
      ensures Abs() == Emit(codec, old(Abs()), b)
    {
      FlushPendingBytes();
      FlushSurrogate();
      WriteString(b);
    }

    // ---- groups and control sequences ------------------------------------------------------------------

    method Push()
      modifies this`stack, this`skipChars
      ensures Abs() == Enter(old(Abs()))
    {
      stack := stack + [stack[|stack| - 1]];
      skipChars := 0;
    }

    method Pop()
      modifies this`stack, this`skipChars, this`out, this`info, this`pending
      ensures Abs() == Leave(if |old(stack)| == 1 then old(Abs()) else FlushPending(codec, old(Abs())))
    {
      if |stack| == 1 {
        return;
      }
      FlushPendingBytes();
      stack := stack[..|stack| - 1];
      skipChars := 0;
    }

    method SetTop(g: Group)
      modifies this`stack
      ensures Abs() == old(Abs()).SetTop(g)
    {
      stack := stack[|stack| - 1 := g];
    }

    method RedirectGroup(dest: Dest, font: int)
      modifies this`stack, this`out, this`info, this`pending
      ensures Abs() == Redirect(codec, old(Abs()), dest, font)
    {
      FlushPendingBytes();
      SetTop(stack[|stack| - 1].(skip := true, dest := dest, font := font));
    }

    method UnicodeValue(value: int)
      modifies this`out, this`info, this`pending, this`highRune, this`skipChars
      ensures Abs() == UnicodeWord(codec, old(Abs()), value)
    {
      FlushPendingBytes();
      var r := CodeUnit(value);
      if IsHighSurrogate(r) {
        FlushSurrogate();
        highRune := r;
      } else if IsLowSurrogate(r) && highRune != 0 {
        var text := if IsHighSurrogate(highRune) then Utf8.Encode(Combine(highRune, r))
                    else Utf8.Encode(Utf8.REPLACEMENT);
        highRune := 0;
        WriteString(text);
      } else {
        FlushSurrogate();
        WriteString(RuneString(r));
      }
      skipChars := stack[|stack| - 1].uc;
    }

    method StartField(name: string)
      modifies this`stack, this`info, this`infoStarted
      ensures Abs() == StartInfoField(old(Abs()), name)
    {
      if name in infoStarted {
        SetTop(stack[|stack| - 1].(infoField := ""));
      } else {
        infoStarted := infoStarted + {name};
        info := info[name := []];
        SetTop(stack[|stack| - 1].(infoField := name));
      }
    }

    method SwitchTo(font: int)
      modifies this`stack, this`out, this`info, this`pending
      ensures Abs() == SwitchFont(codec, old(Abs()), font)
    {
      if stack[|stack| - 1].font != font {
        FlushPendingBytes();
        SetTop(stack[|stack| - 1].(font := font));
      }
    }

    method SetCodePage(page: int)
      modifies this`enc, this`pending, this`out, this`info
      ensures Abs() == FlushPending(codec, old(Abs())).(enc := EncodingForCodePage(page))
    {
      FlushPendingBytes();
      enc := EncodingForCodePage(page);
    }

    method SetDefaultFont(font: int)
      modifies this`defaultFont, this`pending, this`out, this`info, this`stack
      ensures var f := FlushPending(codec, old(Abs())).(defaultFont := font); Abs() == f.SetTop(f.Top().(font := font))
    {
      FlushPendingBytes();
      defaultFont := font;
      SetTop(stack[|stack| - 1].(font := font));
    }

    method SetHidden(on: bool)
      modifies this`pending, this`out, this`info, this`stack
      ensures var f := FlushPending(codec, old(Abs())); Abs() == f.SetTop(f.Top().(hidden := on))
    {
      FlushPendingBytes();
      SetTop(stack[|stack| - 1].(hidden := on));
    }

    method DoControlWord(word: Word, param: int, hasParam: bool)
      modifies this`enc, this`defaultFont, this`fonts, this`pending, this`out, this`stack, this`skipChars,
               this`highRune, this`info, this`infoStarted
      ensures Abs() == ControlWord(codec, old(Abs()), word, param, hasParam)
    {
      var top := stack[|stack| - 1];
      match word {
        case AnsiCpg =>
          if hasParam {
            SetCodePage(param);
          }
        case Deff =>
          if hasParam {
            SetDefaultFont(param);
          }
        case Font =>
          if hasParam {
            SwitchTo(param);
          }
        case FCharset =>
          if hasParam && top.dest == Ignored("fonttbl") && top.font >= 0 && param in FONT_CHARSETS {
            fonts := fonts[top.font := EncodingForCodePage(FONT_CHARSETS[param])];
          }
        case Plain => SwitchTo(defaultFont);
        case Uc =>
          if hasParam {
            SetTop(top.(uc := param));
            skipChars := 0;
          }
        case Unicode =>
          if hasParam {
            UnicodeValue(param);
          }
        case Bin =>
          if hasParam && param > 0 && skipChars > 0 {
            skipChars := skipChars - 1;
          }
        case Character(r) => EmitString(Utf8.Encode(r));
        case Hidden => SetHidden(!hasParam || param != 0);
        case InfoMember(name) =>
          var inside := ScanInInfo();
          if inside {
            StartField(name);
          }
        case Destination(name) =>
          if |stack| > 1 {
            RedirectGroup(Ignored(name), if name == "fonttbl" then -1 else top.font);
          }
        case Info =>
          if |stack| > 1 {
            RedirectGroup(InfoBlock, top.font);
          }
        case Other =>
      }
    }

    method DoControlSymbol(b: byte)
      modifies this`pending, this`out, this`stack, this`skipChars, this`highRune, this`info
      ensures Abs() == ControlSymbol(codec, old(Abs()), b)
    {
      var ch := b as char;
      if skipChars > 0 && CountsAsFallback(b) {
        skipChars := skipChars - 1;
      } else if ch == '\\' || ch == '{' || ch == '}' {
        EmitString([b]);
      } else if ch == '~' {
        EmitString(Utf8.Encode(0xA0));
      } else if ch == '_' {
        EmitString(['-' as int]);
      } else if ch == '\r' || ch == '\n' {
        EmitString([10]);
      } else if ch == '*' {
        if |stack| > 1 {
          RedirectGroup(Ignored("*"), stack[|stack| - 1].font);
        } else {
          FlushPendingBytes();
        }
      }
    }

    /** The end of a control word: its event, and the raw data `\bin` announces. */
    method CompleteWord(name: string, param: int, hasParam: bool, ghost goal: Sem)
      requires br.Valid() && br.mark != Undecided
      requires Run(codec, Apply(codec, Abs(), Control(Classify(name), param, hasParam)),
                   EndWord(name, param, hasParam).next, br.Rest()) == goal
      modifies this, br
      ensures br.Valid() && br.mark == old(br.mark) && |br.Rest()| <= |old(br.Rest())|
      ensures Same(old(emitted), old(bomChecked), old(done))
      ensures Run(codec, Abs(), Ground, br.Rest()) == goal
    {
      hide Run, ControlWord, Classify, Abs;
      var word := Classify(name);
      DoControlWord(word, param, hasParam);
      if word.Bin? && hasParam && param > 0 {
        RunRaw(codec, Abs(), param, br.Rest());
        br.Skip(param);
      }
    }

    /** The fields no control sequence touches. */
    ghost predicate Same(emitted0: seq<byte>, bomChecked0: bool, done0: bool)
      reads this`emitted, this`bomChecked, this`done
    {
      emitted == emitted0 && bomChecked == bomChecked0 && done == done0
    }

    method HexEscape(ghost goal: Sem) returns (eof: bool)
      requires br.Valid() && br.mark != Undecided
      requires Run(codec, Abs(), Quote, br.Rest()) == goal
      modifies this`skipChars, this`pending, br
      ensures br.Valid() && br.mark == old(br.mark) && |br.Rest()| <= |old(br.Rest())|
      ensures eof ==> Flush(codec, Abs()) == goal
      ensures !eof ==> Run(codec, Abs(), Ground, br.Rest()) == goal
    {
      hide *;
      RunHex(codec, Abs(), br.Rest());
      var hi := br.ReadByte();
      if hi.None? {
        return true;
      }
      var lo := br.ReadByte();
      if lo.None? {
        return true;
      }
      PendHex(HexValue(hi.value, lo.value));
      return false;
    }

    method PendHex(value: Option<byte>)
      modifies this`skipChars, this`pending
      ensures Abs() == HexByte(old(Abs()), value)
    {
      if value.Some? {
        if skipChars > 0 {
          skipChars := skipChars - 1;
        } else {
          pending := pending + [value.value];
        }
      }
    }

    /** `control`: everything after a backslash. */
    method DoControl(ghost goal: Sem) returns (eof: bool)
      requires br.Valid() && br.mark != Undecided
      requires Run(codec, Abs(), Slash, br.Rest()) == goal
      modifies this, br
      ensures br.Valid() && br.mark == old(br.mark) && |br.Rest()| <= |old(br.Rest())|
      ensures Same(old(emitted), old(bomChecked), old(done))
      ensures eof ==> Flush(codec, Abs()) == goal
      ensures !eof ==> Run(codec, Abs(), Ground, br.Rest()) == goal
    {
      hide Run, Flush, Abs, ControlSymbol, IsLetter, BufReader.Valid, BufReader.Rest;
      RunSlash(codec, Abs(), br.Rest());
      var b := br.ReadByte();
      if b.None? {
        eof := true;
      } else if b.value == '\'' as int {
        eof := HexEscape(goal);
      } else if !IsLetter(b.value) {
        DoControlSymbol(b.value);
        eof := false;
      } else {
        DoWord(b.value, goal);
        eof := false;
      }
    }

    /** A byte just read and everything after it. */
    ghost function From(b: Option<byte>): seq<byte>
      reads br
    {
      if b.Some? then [b.value] + br.Rest() else []
    }

    /** The byte `b` came from the reader's last successful `ReadByte`; without one the input has ended. */
    ghost predicate JustRead(b: Option<byte>)
      reads br
      ensures JustRead(b) ==> br.Valid() && br.mark != Undecided
    {
      && br.Valid() && br.mark != Undecided
      && (b.None? ==> br.Rest() == [])
      && (b.Some? ==> br.pos > 0 && br.input[br.pos - 1] == b.value && (br.pos in br.Ends() ==> br.pos == br.filled))
    }

    method NextByte(ghost before: Option<byte>) returns (b: Option<byte>)
      requires br.Valid() && br.mark != Undecided
      modifies br`filled, br`chunks, br`pos
      ensures JustRead(b) && From(b) == old(br.Rest())
      ensures before.Some? ==> From(b) == old(From(before))[1..]
    {
      b := br.ReadByte();
    }

    method ReadName(first: byte, ghost goal: Sem) returns (name: string, b: Option<byte>)
      requires br.Valid() && br.mark != Undecided
      requires Run(codec, Abs(), Name([first as char]), br.Rest()) == goal
      modifies br`filled, br`chunks, br`pos
      ensures JustRead(b) && (b.Some? ==> !IsLetter(b.value)) && |From(b)| <= |old(br.Rest())|
      ensures Run(codec, Abs(), Name(name), From(b)) == goal
    {
      hide Run, Abs, IsLetter, JustRead;
      name := [first as char];
      b := NextByte(None);
      while b.Some? && IsLetter(b.value)
        invariant JustRead(b) && |From(b)| <= |old(br.Rest())|
        invariant Run(codec, Abs(), Name(name), From(b)) == goal
        decreases |From(b)|
      {
        RunLetter(codec, Abs(), name, From(b));
        name := name + [b.value as char];
        b := NextByte(b);
      }
    }

    /** The digits, after an optional sign that has already been read. */
    method ReadDigits(name: string, sign: int, first: Option<byte>, ghost start: Lex, ghost goal: Sem)
      returns (b: Option<byte>, param: int, digits: bool, ghost lex: Lex)
      requires JustRead(first)
      requires start == Number(name, sign, 0, false)
            || (start == Name(name) && sign == 1 && (first.Some? ==> !IsLetter(first.value) && first.value != '-' as int))
      requires Run(codec, Abs(), start, From(first)) == goal
      modifies br`filled, br`chunks, br`pos
      ensures JustRead(b) && (b.Some? ==> !IsDigit(b.value)) && |From(b)| <= |old(From(first))|
      ensures lex == Number(name, sign, param, digits)
           || (lex == Name(name) && sign == 1 && param == 0 && !digits
               && (b.Some? ==> !IsLetter(b.value) && b.value != '-' as int))
      ensures Run(codec, Abs(), lex, From(b)) == goal
    {
      hide Run, Abs, IsLetter, IsDigit, JustRead, AddDigit;
      b, param, digits, lex := first, 0, false, start;
      while b.Some? && IsDigit(b.value)
        invariant JustRead(b) && |From(b)| <= |old(From(first))|
        invariant lex == Number(name, sign, param, digits)
               || (lex == Name(name) && sign == 1 && param == 0 && !digits
                   && (b.Some? ==> !IsLetter(b.value) && b.value != '-' as int))
        invariant Run(codec, Abs(), lex, From(b)) == goal
        decreases |From(b)|
      {
        RunDigit(codec, Abs(), lex, name, sign, param, digits, From(b));
        param := AddDigit(param, b.value);
        digits := true;
        lex := Number(name, sign, param, true);
        b := NextByte(b);
      }
    }

    /** The name, sign, digits and delimiter of a control word; a delimiter that is not a space is put back. */
    method DoWord(first: byte, ghost goal: Sem)
      requires br.Valid() && br.mark != Undecided
      requires IsLetter(first) && Run(codec, Abs(), Name([first as char]), br.Rest()) == goal
      modifies this, br
      ensures br.Valid() && br.mark == old(br.mark) && |br.Rest()| <= |old(br.Rest())|
      ensures Same(old(emitted), old(bomChecked), old(done))
      ensures Run(codec, Abs(), Ground, br.Rest()) == goal
    {
      hide Run, Abs, IsLetter, IsDigit, Apply, EndWord, AddDigit, Int64, Classify, Lead, HasBom, BomWhole, Flush;
      var name, b := ReadName(first, goal);
      if b.None? {
        RunEndWord(codec, Abs(), Name(name), name, 1, 0, false, []);
        CompleteWord(name, 0, false, goal);
        return;
      }
      var sign := 1;
      ghost var lex := Name(name);
      if b.value == '-' as int {
        RunSign(codec, Abs(), name, From(b));
        b := NextByte(b);
        sign, lex := -1, Number(name, -1, 0, false);
        if b.None? {
          RunEndWord(codec, Abs(), lex, name, sign, 0, false, []);
          CompleteWord(name, 0, false, goal);
          return;
        }
      }
      var param, digits;
      b, param, digits, lex := ReadDigits(name, sign, b, lex, goal);
      RunEndWord(codec, Abs(), lex, name, sign, param, digits, From(b));
      if b.Some? && b.value != ' ' as int {
        br.UnreadByte();
      }
      CompleteWord(name, Int64(sign * param), digits, goal);
    }

    // ---- stepping and reading --------------------------------------------------------------------------

    method PlainRun()
      requires br.Valid() && br.mark != Undecided
      requires br.pos < br.filled && IsPlain(br.input[br.pos]) && skipChars <= 0
      modifies this`out, this`info, this`pending, this`highRune, br`pos
      ensures br.Valid() && |br.Rest()| < |old(br.Rest())|
      ensures Run(codec, Abs(), Ground, br.Rest()) == Run(codec, old(Abs()), Ground, old(br.Rest()))
    {
      hide Run, Emit;
      ghost var rest := br.Rest();
      var n := br.CountRun(IsPlain);
      var run := br.input[br.pos..br.pos + n];
      assert run == rest[..n];
      RunPlain(codec, Abs(), n, rest);
      EmitString(run);
      br.Discard(n);
    }

    method HighRun()
      requires br.Valid() && br.mark != Undecided
      requires br.pos < br.filled && br.input[br.pos] >= 0x80
      modifies this`pending, this`skipChars, br`pos
      ensures br.Valid() && |br.Rest()| < |old(br.Rest())|
      ensures Run(codec, Abs(), Ground, br.Rest()) == Run(codec, old(Abs()), Ground, old(br.Rest()))
    {
      hide Run, Buffer, Abs;
      ghost var rest := br.Rest();
      var n := br.CountRun(b => b >= 0x80);
      ghost var dropped := if skipChars > 0 then Min(skipChars, n) else 0;
      assert Abs().skipChars == skipChars by { SkipCharsOf(); }
      RunHigh(codec, Abs(), n, dropped, rest);
      var run := br.input[br.pos..br.pos + n];
      assert run == rest[..n];
      var drop := Min(skipChars, n);
      if drop > 0 {
        DropChars(drop);
        run := run[drop..];
      }
      assert run == rest[dropped..n];
      BufferRun(run);
      br.Discard(n);
    }

    lemma SkipCharsOf()
      ensures Abs().skipChars == skipChars
    {
    }

    method BufferRun(run: seq<byte>)
      modifies this`pending
      ensures Abs() == Buffer(old(Abs()), run)
    {
      var field := CaptureField();
      if |run| > 0 && (field.Some? || (!stack[|stack| - 1].skip && !stack[|stack| - 1].hidden)) {
        pending := pending + run;
      }
    }

    method SkipWhite()
      requires br.Valid() && br.pos < br.filled && br.input[br.pos] < 0x20
      modifies br`pos
      ensures br.Valid() && |br.Rest()| < |old(br.Rest())|
      ensures Run(codec, Abs(), Ground, br.Rest()) == Run(codec, Abs(), Ground, old(br.Rest()))
    {
      hide Run, HasBom, BomWhole, Lead;
      ghost var rest := br.Rest();
      var n := br.CountRun(b => b < 0x20);
      RunWhite(codec, Abs(), n, rest);
      assert br.mark == Undecided ==> br.pos + n <= Lead(br.input) by {
        assert forall i | br.pos <= i < br.pos + n :: br.input[i] == rest[i - br.pos];
      }
      br.Discard(n);
    }

    method DropChars(n: int)
      modifies this`skipChars
      ensures Abs() == old(Abs()).(skipChars := old(Abs()).skipChars - n)
    {
      skipChars := skipChars - n;
    }

    /** `step`: at least one byte is consumed, unless the input has ended. */
    method Step() returns (eof: bool)
      requires Valid() && !done
      modifies this, br
      ensures br.Valid() && !done && emitted == old(emitted)
      ensures !eof ==> Valid() && |br.Rest()| < |old(br.Rest())|
      ensures eof ==> Flush(codec, Abs()) == Expected(codec, br.input, br.Ends())
      ensures |br.Rest()| <= |old(br.Rest())|
    {
      hide Run, Flush, Init, HasBom, BomWhole, BufReader.Ends, Delivered;
      br.Fill();
      if br.pos == br.filled {
        EndOfInput();
        return true;
      }
      if !bomChecked {
        if br.input[br.pos] >= 0x20 {
          var stripped := br.StripMark();
          bomChecked := true;
          if stripped {
            assert br.Rest() == br.input[Lead(br.input) + |BOM|..];
            return false;
          }
          RunWhite(codec, Init(), br.pos, br.input);
        } else {
          SkipWhite();
          return false;
        }
      }
      ghost var goal := Goal();
      GoalIsExpected();
      assert Run(codec, Abs(), Ground, br.Rest()) == goal;
      hide Abs, BufReader.Rest, BufReader.Valid, Expected;
      eof := Dispatch();
      GoalIsExpected();
    }

    lemma EndOfInput()
      requires Valid() && !done && br.Rest() == []
      ensures Flush(codec, Abs()) == Expected(codec, br.input, br.Ends())
    {
      if !bomChecked {
        RunWhite(codec, Init(), |br.input|, br.input);
      }
    }

    lemma GoalIsExpected()
      requires br.Valid() && br.mark != Undecided
      ensures Goal() == Expected(codec, br.input, br.Ends())
    {
      hide Run;
    }

    method OpenGroup()
      requires br.Valid() && br.mark != Undecided
      requires br.pos < br.filled && br.input[br.pos] == '{' as int
      modifies this`stack, this`skipChars, this`out, this`info, this`pending, br`pos
      ensures br.Valid() && |br.Rest()| < |old(br.Rest())|
      ensures Run(codec, Abs(), Ground, br.Rest()) == Run(codec, old(Abs()), Ground, old(br.Rest()))
    {
      RunDispatch(codec, Abs(), br.Rest());
      hide Run, Enter, FlushPending, Abs;
      br.Discard(1);
      FlushPendingBytes();
      Push();
    }

    method CloseGroup()
      requires br.Valid() && br.mark != Undecided
      requires br.pos < br.filled && br.input[br.pos] == '}' as int
      modifies this`stack, this`skipChars, this`out, this`info, this`pending, br`pos
      ensures br.Valid() && |br.Rest()| < |old(br.Rest())|
      ensures Run(codec, Abs(), Ground, br.Rest()) == Run(codec, old(Abs()), Ground, old(br.Rest()))
    {
      RunDispatch(codec, Abs(), br.Rest());
      FlushTwice(codec, Abs());
      hide Run, Leave, FlushPending, Abs;
      br.Discard(1);
      FlushPendingBytes();
      Pop();
    }

    /** A fallback character after `\u`. */
    method SkipFallback()
      requires br.Valid() && br.mark != Undecided
      requires br.pos < br.filled && IsPlain(br.input[br.pos]) && skipChars > 0
      modifies this`skipChars, br`pos
      ensures br.Valid() && |br.Rest()| < |old(br.Rest())|
      ensures Run(codec, Abs(), Ground, br.Rest()) == Run(codec, old(Abs()), Ground, old(br.Rest()))
    {
      hide Run, Abs, Buffer, Enter, Leave, FlushPending, HasBom, BomWhole, Lead;
      SkipCharsOf();
      RunDispatch(codec, Abs(), br.Rest());
      br.Discard(1);
      DropChars(1);
    }

    method Backslash() returns (eof: bool)
      requires br.Valid() && br.mark != Undecided
      requires br.pos < br.filled && br.input[br.pos] == '\\' as int
      modifies this, br
      ensures br.Valid() && br.mark == old(br.mark) && |br.Rest()| < |old(br.Rest())|
      ensures Same(old(emitted), old(bomChecked), old(done))
      ensures eof ==> Flush(codec, Abs()) == Run(codec, old(Abs()), Ground, old(br.Rest()))
      ensures !eof ==> Run(codec, Abs(), Ground, br.Rest()) == Run(codec, old(Abs()), Ground, old(br.Rest()))
    {
      RunDispatch(codec, Abs(), br.Rest());
      hide Run, Flush, Abs;
      br.Discard(1);
      eof := DoControl(Run(codec, old(Abs()), Ground, old(br.Rest())));
    }

    /** The byte dispatch of `step`. */
    method Dispatch() returns (eof: bool)
      requires br.Valid() && br.mark != Undecided && br.pos < br.filled
      modifies this, br
      ensures br.Valid() && br.mark == old(br.mark) && |br.Rest()| <= |old(br.Rest())|
      ensures Same(old(emitted), old(bomChecked), old(done))
      ensures eof ==> Flush(codec, Abs()) == Run(codec, old(Abs()), Ground, old(br.Rest()))
      ensures !eof ==> Run(codec, Abs(), Ground, br.Rest()) == Run(codec, old(Abs()), Ground, old(br.Rest()))
      ensures !eof ==> |br.Rest()| < |old(br.Rest())|
    {
      hide Run, Flush, Abs, BufReader.Rest, BufReader.Valid;
      var b := br.input[br.pos];
      eof := false;
      if b == '{' as int {
        OpenGroup();
      } else if b == '}' as int {
        CloseGroup();
      } else if b == '\\' as int {
        eof := Backslash();
      } else if b < 0x20 {
        SkipWhite();
      } else if b >= 0x80 {
        HighRun();
      } else if skipChars > 0 {
        SkipFallback();
      } else {
        PlainRun();
      }
    }

    /** `Read`: hands out decoded text, `n` bytes of it, and reports the end of the stream with none. */
    method Read(p: array<byte>) returns (n: nat, eof: bool)
      requires Valid()
      modifies this, br, p
      ensures Valid() && n <= p.Length
      ensures emitted == old(emitted) + p[..n] && p[n..] == old(p[n..])
      ensures emitted <= Expected(codec, br.input, br.Ends()).out
      ensures !eof && p.Length > 0 ==> n > 0
      ensures eof ==> n == 0 && done && Abs() == Expected(codec, br.input, br.Ends()) && emitted == Abs().out
    {
      if p.Length == 0 {
        assert p[..0] == [];
        EmittedSoFar();
        return 0, false;
      }
      Produce();
      EmittedSoFar();
      hide Run, Expected, Goal, Init, Abs;
      n := HandOut(p);
      eof := n == 0;
    }

    /** The copy at the end of `Read`. */
    method HandOut(p: array<byte>) returns (n: nat)
      modifies this`out, this`emitted, p
      ensures n == Min(p.Length, |old(out)|)
      ensures Abs() == old(Abs())
      ensures emitted == old(emitted) + p[..n] && p[n..] == old(p[n..])
      ensures emitted <= old(emitted + out) && (|old(out)| == 0 ==> emitted == old(emitted) && out == [])
    {
      n := Min(p.Length, |out|);
      forall i | 0 <= i < n {
        p[i] := out[i];
      }
      assert p[..n] == out[..n];
      assert emitted + out[..n] + out[n..] == emitted + out;
      emitted := emitted + out[..n];
      out := out[n..];
    }

    /** The loop of `Read`: steps until there is text to hand out, or the input has ended and is flushed. */
    method Produce()
      requires Valid()
      modifies this, br
      ensures Valid() && emitted == old(emitted) && (out == [] ==> done)
    {
      hide Run, Flush, Expected, Goal, Init, Abs;
      while |out| == 0
        invariant Valid() && emitted == old(emitted)
        decreases |br.Rest()|, !done
      {
        if done {
          return;
        }
        var end := Step();
        if end {
          Finish();
        }
      }
    }

    method Finish()
      modifies this`out, this`info, this`pending, this`highRune, this`done
      ensures Abs() == Flush(codec, old(Abs())) && done
    {
      done := true;
      FlushPendingBytes();
      FlushSurrogate();
    }

    lemma EmittedSoFar()
      requires Valid()
      ensures emitted + out <= Expected(codec, br.input, br.Ends()).out
      ensures done ==> emitted + out == Abs().out == Expected(codec, br.input, br.Ends()).out
    {
      if done {
      } else if bomChecked {
        RunGrows(codec, Abs(), Ground, br.Rest());
      } else {
        assert emitted + out == [];
      }
    }
  }

  /**
   * A whole document, delivered in any pieces and read through any sequence of buffer sizes: the pieces handed out,
   * put together, and the `\info` fields are those of the reference decoder. The source's deliveries decide nothing
   * but the fate of a split mark.
   */
  method DecodeStream(codec: Codec, input: seq<byte>, source: nat -> Size, sizes: nat -> Size)
    returns (text: seq<byte>, info: map<string, seq<byte>>)
    ensures text == Expected(codec, input, Cuts(input, source)).out
    ensures info == Expected(codec, input, Cuts(input, source)).info
  {
    var d := new TextDecoder(codec, input, source);
    text := [];
    var eof, k := false, 0;
    ghost var expected := Expected(codec, input, Cuts(input, source));
    while !eof
      invariant fresh(d) && fresh(d.br) && d.Valid() && d.codec == codec && d.br.input == input && d.br.source == source
      invariant text == d.emitted <= expected.out
      invariant eof ==> d.Abs() == expected && text == expected.out
      decreases !eof, |expected.out| - |text|
    {
      hide Run, Flush, Init, Expected, Cuts, TextDecoder.Valid;
      var p := new byte[sizes(k)];
      var n;
      n, eof := d.Read(p);
      text := text + p[..n];
      k := k + 1;
    }
    info := d.info;
  }

  /** A first read that reaches past the mark delivers it whole; one that ends inside it does not. */
  lemma FirstReadDecides(input: seq<byte>, source: nat -> Size)
    requires HasBom(input) && Lead(input) + |BOM| <= BUFFER_SIZE
    ensures source(0) >= Lead(input) + |BOM| ==> BomWhole(input, Cuts(input, source))
    ensures Lead(input) < source(0) < Lead(input) + |BOM| ==> !BomWhole(input, Cuts(input, source))
  {
    var first := Delivered(input, source, 1);
    assert input[Lead(input)..][..|BOM|] == BOM;
    assert first == Delivered(input, source, 0) + Min(source(0), Min(BUFFER_SIZE, |input|));
    forall n | n in Cuts(input, source) && n < first ensures false {
      NoCutBetween(input, source, 0, n);
    }
  }

  /** Without a byte order mark, or with one that the first read reaches past, the way the input arrives does not matter. */
  lemma DeliveryIrrelevant(c: Codec, input: seq<byte>, source: nat -> Size)
    requires HasBom(input) ==> Lead(input) + |BOM| <= Min(source(0), BUFFER_SIZE)
    ensures Expected(c, input, Cuts(input, source)) == Decode(c, input, true)
  {
    hide Run;
    if HasBom(input) {
      FirstReadDecides(input, source);
    }
  }

  /** A document that is a mark alone is empty, unless the first read splits it: then it is three characters of the default code page. */
  lemma SplitMarkBecomesText(c: Codec, source: nat -> Size)
    ensures Expected(c, BOM, Cuts(BOM, source)).out == if source(0) < |BOM| then DecodePage(c, WINDOWS_1252, BOM) else []
  {
    assert Lead(BOM) == 0 && HasBom(BOM) && BOM[0..] == BOM;
    assert BOM[3..] == [];
    FirstReadDecides(BOM, source);
    hide Cuts;
    var s := Init();
    RunEnd(c, s, Ground);
    RunBufferHigh(c, s, 3, BOM);
    assert BOM[..3] == BOM;
    RunEnd(c, Buffer(s, BOM), Ground);
    hide Run, DecodePage;
    assert Capture(s) == None && Visible(s);
    assert Buffer(s, BOM).pending == BOM;
  }
}
