/**
 * A random-access view over a sequential stream: `spoolBlob` (internal/processor/spool.go). The first bytes stay in
 * memory, the rest goes to a temporary file, and nothing is pulled before it is asked for.
 */
module Spool {
  import opened Base

  const MEM_LIMIT: nat := 0x400_0000
  const CHUNK: nat := 32 * 1024
  const MAX_OFFSET: nat := 0x7FFF_FFFF_FFFF_FFFF

  /** How the source ends after its last byte. */
  datatype Ending = AtEof | Fault(code: int)

  datatype Error = Eof | SourceFailed(code: int) | DiskFailed | InvalidWhence | NegativePosition

  /** The error a read past the last byte reports. */
  function EndError(e: Ending): Error {
    match e
    case AtEof => Eof
    case Fault(code) => SourceFailed(code)
  }

  /** `data[off..off+len]` as far as `data` reaches. */
  function Window(data: seq<byte>, off: nat, len: nat): (r: seq<byte>)
    ensures |r| <= len
  {
    var lo := Min(off, |data|);
    data[lo..Min(off + len, |data|)]
  }

  /** The wrapped reader: chunks of any size, the end announced with the last bytes or after them. */
  class Source {
    const data: seq<byte>
    const ending: Ending
    var at: nat
    var patience: nat   // how many empty reads without an error it still makes

    constructor (data: seq<byte>, ending: Ending, patience: nat)
      ensures this.data == data && this.ending == ending && at == 0
    {
      this.data, this.ending, this.at, this.patience := data, ending, 0, patience;
    }

    method Read(max: nat) returns (chunk: seq<byte>, err: Option<Error>)
      requires at <= |data| && max > 0
      modifies this
      ensures old(at) <= at <= |data| && at <= old(at) + max && chunk == data[old(at)..at]
      ensures err.Some? ==> at == |data| && err.value == EndError(ending)
      ensures err.None? ==> at > old(at) || patience < old(patience)
      ensures patience <= old(patience)
    {
      var m: nat :| m <= max && at + m <= |data| && (m > 0 || at == |data| || patience > 0);
      chunk := data[at..at + m];
      at := at + m;
      var announce: bool := *;
      err := if at == |data| && (announce || (m == 0 && patience == 0)) then Some(EndError(ending)) else None;
      if m == 0 && err.None? {
        patience := patience - 1;
      }
    }
  }

  class SpoolBlob {
    const src: Source
    const ramCap: nat
    var size: int
    var known: bool
    var ram: seq<byte>
    var onDisk: bool
    var spill: seq<byte>   // the bytes in the temporary file
    var spillN: nat
    var eof: bool
    var srcErr: Option<Error>
    var pos: nat
    var closed: bool

    function Length(): nat
      reads `ram, `spillN
    {
      |ram| + spillN
    }

    /** What is buffered is the beginning of the stream, and the file holds bytes only when memory is full. */
    ghost predicate Buffered()
      reads `ram, `spill, `spillN, `srcErr, `onDisk
    {
      && ram + spill <= src.data
      && spillN <= |spill|
      && (srcErr != Some(DiskFailed) ==> spillN == |spill|)
      && (spill != [] ==> onDisk)
    }

    ghost predicate Valid()
      reads `ram, `spill, `spillN, `onDisk, `eof, `srcErr, `size, `known, `closed, src
    {
      && 0 < ramCap && |ram| <= ramCap
      && (spillN > 0 || spill != [] ==> |ram| == ramCap)
      && (known ==> size >= 0)
      && (closed ==> !onDisk)
      && Length() <= src.at <= |src.data|
      && (srcErr != Some(DiskFailed) ==> Length() == src.at)
      && (eof ==> src.ending.AtEof? && src.at == |src.data|)
      && (srcErr.Some? ==> srcErr.value == DiskFailed || (srcErr.value == EndError(src.ending) && src.ending.Fault? && src.at == |src.data|))
      && (!closed ==> Buffered())
    }

    /** The state before any byte has been pulled. */
    constructor (ramCap: int, src: Source, size: int)
      requires src.at == 0
      ensures Valid() && this.src == src && !closed && srcErr.None? && !eof && Length() == 0 && pos == 0
      ensures this.ramCap == (if ramCap <= 0 then MEM_LIMIT else ramCap)
      ensures known == (size >= 0) && this.size == size
    {
      this.src, this.size, this.known := src, size, size >= 0;
      this.ramCap := if ramCap <= 0 then MEM_LIMIT else ramCap;
      ram, onDisk, spill, spillN := [], false, [], 0;
      eof, srcErr, pos, closed := false, None, 0, false;
    }

    /** `append`: memory up to the cap, the rest into the file, which may fail after any part of it is written. */
    method Append(data: seq<byte>) returns (err: Option<Error>)
      requires |ram| <= ramCap && spillN == |spill|
      requires spill != [] ==> |ram| == ramCap && onDisk
      modifies this`ram, this`spill, this`spillN, this`onDisk
      ensures old(ram) <= ram && old(spill) <= spill && |ram| <= ramCap
      ensures ram + spill <= old(ram + spill) + data && spillN <= |spill|
      ensures spill != [] ==> |ram| == ramCap && onDisk
      ensures old(Length()) <= Length()
      ensures err.None? ==> ram + spill == old(ram + spill) + data && spillN == |spill|
      ensures err.Some? ==> err.value == DiskFailed && spillN == old(spillN)
    {
      ghost var ram0, spill0 := ram, spill;
      var rest := data;
      var space := ramCap - |ram|;
      if space > 0 {
        if |data| <= space {
          ram := ram + data;
          Taken(ram0, [], data, |data|, 0);
          return None;
        }
        ram := ram + data[..space];
        rest := data[space..];
      }
      ghost var k := |data| - |rest|;
      if !onDisk {
        var created: bool := *;
        if !created {
          Taken(ram0, spill0, data, k, 0);
          return Some(DiskFailed);
        }
        onDisk := true;
      }
      var written: nat :| written <= |rest|;
      spill := spill + rest[..written];
      Taken(ram0, spill0, data, k, written);
      var failed: bool := *;
      if written < |rest| || failed {
        return Some(DiskFailed);
      }
      spillN := spillN + |rest|;
      return None;
    }

    /** One turn of the loop in `ensure`: a chunk from the source, and how it ended. */
    method Pull()
      requires Valid() && !closed && srcErr.None? && !eof
      modifies this`ram, this`spill, this`spillN, this`onDisk, this`eof, this`srcErr, src
      ensures Valid()
      ensures old(ram) <= ram && old(spill) <= spill && old(Length()) <= Length()
      ensures old(src.at) <= src.at <= old(src.at) + CHUNK
      ensures srcErr.Some? || eof || src.at > old(src.at) || src.patience < old(src.patience)
      ensures src.patience <= old(src.patience)
    {
      ghost var at := src.at;
      var chunk, rerr := src.Read(CHUNK);
      assert ram + spill == src.data[..at];
      assert ram + spill + chunk == src.data[..src.at];
      if |chunk| > 0 {
        var aerr := Append(chunk);
        if aerr.Some? {
          srcErr := aerr;
          return;
        }
      }
      assert ram + spill == src.data[..src.at];
      if rerr == Some(Eof) {
        eof := true;
      } else if rerr.Some? {
        srcErr := rerr;
      }
    }

    /** `ensure`: pulls until `n` bytes are buffered, the source ends or something fails; an error stays. */
    method Ensure(n: int) returns (err: Option<Error>)
      requires Valid() && !closed
      modifies this`ram, this`spill, this`spillN, this`onDisk, this`eof, this`srcErr, src
      ensures Valid() && err == srcErr
      ensures old(ram) <= ram && old(spill) <= spill && old(Length()) <= Length()
      ensures old(srcErr.Some?) || old(Length()) >= n ==> src.at == old(src.at) && srcErr == old(srcErr)
      ensures src.at != old(src.at) ==> src.at < n + CHUNK
      ensures err.None? ==> Length() >= n || (Length() == |src.data| && eof)
    {
      if srcErr.Some? {
        return srcErr;
      }
      hide Buffered;
      while Length() < n && !eof
        invariant Valid() && srcErr.None?
        invariant old(ram) <= ram && old(spill) <= spill && old(Length()) <= Length()
        invariant old(Length()) >= n ==> src.at == old(src.at)
        invariant src.at != old(src.at) ==> src.at < n + CHUNK
        decreases |src.data| - src.at + src.patience, !eof
      {
        Pull();
        if srcErr.Some? {
          return srcErr;
        }
      }
      return srcErr;
    }

    /** `copyFrom`: what is buffered at `off`, from memory first and then from the file. */
    method CopyFrom(off: nat, p: array<byte>) returns (total: nat)
      requires Valid() && !closed
      modifies p
      ensures total <= p.Length && p[..] == Filled(old(p[..]), src.data, off, total)
      ensures total >= p.Length || off + total >= Length()
      ensures off >= Length() ==> total == 0
      ensures total > 0 ==> off + total <= |ram| + |spill|
    {
      total := CopyHeld(src.data, ram, spill, spillN, off, p);
    }

    /** `ReadAt`: unless the disk fails, exactly what indexing into the whole stream gives. */
    method ReadAt(p: array<byte>, off: int) returns (n: nat, err: Option<Error>)
      requires Valid() && (p.Length > 0 ==> !closed && off >= 0)
      modifies this`ram, this`spill, this`spillN, this`onDisk, this`eof, this`srcErr, src, p
      ensures Valid() && n <= p.Length && p[n..] == old(p[n..])
      ensures p.Length == 0 ==> err.None? && src.at == old(src.at) && srcErr == old(srcErr)
      ensures p.Length > 0 ==> p[..n] == Window(src.data, off, n)
      ensures err.Some? <==> n < p.Length
      ensures p.Length > 0 && srcErr != Some(DiskFailed) ==> Bytes(p[..n], err) == PlainRead(src.data, src.ending, p.Length, off)
      ensures err.Some? && srcErr != Some(DiskFailed) ==>
                off + n >= |src.data| && err.value == match src.ending case AtEof => Eof case Fault(code) => SourceFailed(code)
      ensures err == Some(DiskFailed) ==> srcErr == err
      ensures off + p.Length <= old(Length()) ==> err.None? && src.at == old(src.at)
      ensures old(srcErr.Some?) ==> srcErr == old(srcErr) && src.at == old(src.at)
      ensures src.at != old(src.at) ==> src.at < off + p.Length + CHUNK
      ensures old(ram) <= ram
    {
      if p.Length == 0 {
        return 0, None;
      }
      var eerr := Ensure(off + p.Length);
      n := CopyFrom(off, p);
      if n < p.Length {
        assert srcErr != Some(DiskFailed) ==> Length() == |src.data|;
        err := if eerr.Some? then eerr else Some(Eof);
      } else {
        err := None;
      }
    }

    /** `Read`: `ReadAt` at the cursor, which moves by what was read. */
    method Read(p: array<byte>) returns (n: nat, err: Option<Error>)
      requires Valid() && (p.Length > 0 ==> !closed)
      modifies this`ram, this`spill, this`spillN, this`onDisk, this`eof, this`srcErr, this`pos, src, p
      ensures Valid() && n <= p.Length && p[n..] == old(p[n..]) && pos == old(pos) + n
      ensures p.Length == 0 ==> err.None? && src.at == old(src.at) && srcErr == old(srcErr)
      ensures p.Length > 0 ==> p[..n] == Window(src.data, old(pos), n)
      ensures err.Some? <==> n < p.Length
      ensures p.Length > 0 && srcErr != Some(DiskFailed) ==> Bytes(p[..n], err) == PlainRead(src.data, src.ending, p.Length, old(pos))
      ensures old(srcErr.Some?) ==> srcErr == old(srcErr) && src.at == old(src.at)
      ensures src.at != old(src.at) ==> src.at < old(pos) + p.Length + CHUNK
    {
      if p.Length == 0 {
        return 0, None;
      }
      n, err := ReadAt(p, pos);
      pos := pos + n;
    }

    /** `Size`: the declared size, or the length of the whole stream, which then has to be pulled. */
    method Size() returns (v: int, err: Option<Error>)
      requires Valid() && (known || !closed)
      modifies this`ram, this`spill, this`spillN, this`onDisk, this`eof, this`srcErr, this`size, this`known, src
      ensures Valid()
      ensures old(known) ==> v == size == old(size) && known && err.None? && src.at == old(src.at) && srcErr == old(srcErr)
      ensures !old(known) && err.None? ==>
                known && v == size && (|src.data| < MAX_OFFSET ==> v == |src.data| && src.ending.AtEof?)
      ensures err.Some? ==> v == 0 && !known && srcErr == err
    {
      if !known {
        err := Ensure(MAX_OFFSET);
        if err.Some? {
          return 0, err;
        }
        size := Length();
        known := true;
      }
      return size, None;
    }

    /** `Seek`: an invalid request leaves the cursor where it is. */
    method Seek(offset: int, whence: int) returns (v: int, err: Option<Error>)
      requires Valid() && (whence == 2 ==> known || !closed)
      modifies this`ram, this`spill, this`spillN, this`onDisk, this`eof, this`srcErr, this`size, this`known, this`pos, src
      ensures Valid()
      ensures old(known) || whence != 2 ==>
                && Offset(v, err) == PlainSeek(old(size), old(pos), offset, whence)
                && src.at == old(src.at) && srcErr == old(srcErr) && size == old(size) && known == old(known)
      ensures !old(known) && whence == 2 && known ==> Offset(v, err) == PlainSeek(size, old(pos), offset, 2)
      ensures !old(known) && whence == 2 && |src.data| < MAX_OFFSET && known ==> size == |src.data|
      ensures pos == if err.None? then v else old(pos)
      ensures whence == 0 && offset >= 0 ==> err.None? && v == offset
      ensures whence == 1 && old(pos) + offset >= 0 ==> err.None? && v == old(pos) + offset
      ensures whence == 2 && old(known) && old(size) + offset >= 0 ==> err.None? && v == old(size) + offset
      ensures whence !in {0, 1, 2} ==> err == Some(InvalidWhence)
    {
      hide Valid, Buffered;
      var newPos;
      if whence == 0 {
        newPos := offset;
      } else if whence == 1 {
        newPos := pos + offset;
      } else if whence == 2 {
        var end, serr := Size();
        if serr.Some? {
          return 0, serr;
        }
        newPos := end + offset;
      } else {
        return 0, Some(InvalidWhence);
      }
      if newPos < 0 {
        return 0, Some(NegativePosition);
      }
      pos := newPos;
      return newPos, None;
    }

    /** `Close`: removes the file, once. */
    method Close()
      requires Valid()
      modifies this`closed, this`spill, this`onDisk
      ensures Valid() && closed && !onDisk
    {
      if closed {
        return;
      }
      closed := true;
      if onDisk {
        spill, onDisk := [], false;
      }
    }
  }

  /** What memory and file hold after the first `k` and the next `written` bytes of `data` went there. */
  lemma Taken(ram: seq<byte>, spill: seq<byte>, data: seq<byte>, k: nat, written: nat)
    requires k + written <= |data| && (k > 0 ==> spill == [])
    ensures var held := ram + data[..k] + (spill + data[k..][..written]);
      held <= ram + spill + data && (k + written == |data| ==> held == ram + spill + data)
  {
    var held := ram + data[..k] + (spill + data[k..][..written]);
    assert data[..k] + data[k..][..written] == data[..k + written];
    if k > 0 {
      assert held == ram + data[..k + written];
      assert ram + spill == ram;
    } else {
      assert held == ram + spill + data[..written];
    }
    assert data == data[..k + written] + data[k + written..];
  }

  /** One turn of the loop in `copyFrom`: from memory if offset `o` lies there, else from the file. */
  method CopyPart(ghost data: seq<byte>, ram: seq<byte>, spill: seq<byte>, o: nat, p: array<byte>, at: nat)
    returns (c: nat)
    requires ram + spill <= data && o < |ram| + |spill| && at < p.Length
    modifies p
    ensures 0 < c <= p.Length - at && o + c <= |ram| + |spill|
    ensures p[..] == old(p[..])[..at] + data[o..o + c] + old(p[..])[at + c..]
  {
    if o < |ram| {
      c := Copy(p, at, ram, o);
      HeldIsStream(data, ram, spill, ram[o..o + c], o);
    } else {
      c := Copy(p, at, spill, o - |ram|);
      HeldIsStream(data, ram, spill, spill[o - |ram|..o - |ram| + c], o);
    }
  }

  /** The loop of `copyFrom` over what memory and file hold. */
  method CopyHeld(ghost data: seq<byte>, ram: seq<byte>, spill: seq<byte>, spillN: nat, off: nat, p: array<byte>)
    returns (total: nat)
    requires ram + spill <= data && spillN <= |spill|
    modifies p
    ensures total <= p.Length && p[..] == Filled(old(p[..]), data, off, total)
    ensures total >= p.Length || off + total >= |ram| + spillN
    ensures off >= |ram| + spillN ==> total == 0
    ensures total > 0 ==> off + total <= |ram| + |spill|
  {
    hide *;
    total := 0;
    ghost var before := p[..];
    FilledNone(before, data, off);
    while total < p.Length
      invariant total <= p.Length
      invariant total > 0 ==> off + total <= |ram| + |spill|
      invariant p[..] == Filled(before, data, off, total)
      invariant off >= |ram| + spillN ==> total == 0
    {
      var o := off + total;
      if o >= |ram| + spillN {
        break;
      }
      var c := CopyPart(data, ram, spill, o, p, total);
      FilledGrows(before, data, off, total, c);
      total := total + c;
    }
  }

  /** `before` after the first `len` bytes were replaced by the stream's bytes at `off`. */
  function Filled(before: seq<byte>, data: seq<byte>, off: nat, len: nat): seq<byte>
    requires len <= |before|
  {
    Window(data, off, len) + before[len..]
  }

  lemma FilledNone(before: seq<byte>, data: seq<byte>, off: nat)
    ensures Filled(before, data, off, 0) == before
  {
  }

  lemma FilledGrows(before: seq<byte>, data: seq<byte>, off: nat, len: nat, c: nat)
    requires len + c <= |before| && off + len + c <= |data|
    ensures var filled := Filled(before, data, off, len);
      |filled| == |before| &&
      filled[..len] + data[off + len..off + len + c] + filled[len + c..] == Filled(before, data, off, len + c)
  {
  }

  /** Bytes taken from either buffer at the place of offset `o` are the stream's bytes at `o`. */
  lemma HeldIsStream(data: seq<byte>, ram: seq<byte>, spill: seq<byte>, part: seq<byte>, o: nat)
    requires ram + spill <= data && o + |part| <= |ram| + |spill|
    requires if o < |ram| then o + |part| <= |ram| && part == ram[o..o + |part|]
             else part == spill[o - |ram|..o - |ram| + |part|]
    ensures part == data[o..o + |part|]
  {
    var held := ram + spill;
    assert held == data[..|held|];
    assert part == held[o..o + |part|];
  }

  /** Go's `copy(p[at:], from[start:])`. */
  method Copy(p: array<byte>, at: nat, from: seq<byte>, start: nat) returns (c: nat)
    requires at <= p.Length && start <= |from|
    modifies p
    ensures c == Min(p.Length - at, |from| - start)
    ensures p[..] == old(p[..])[..at] + from[start..start + c] + old(p[..])[at + c..]
  {
    c := Min(p.Length - at, |from| - start);
    forall k | 0 <= k < c {
      p[at + k] := from[start + k];
    }
  }

  /**
   * `newSpoolBlob`: with a declared size nothing is read yet; without one the whole stream is buffered, and a failure
   * of the source or the disk shows at once.
   */
  method NewSpoolBlob(ramCap: int, src: Source, size: int) returns (b: SpoolBlob?, err: Option<Error>)
    requires src.at == 0
    modifies src
    ensures err.None? <==> b != null
    ensures b != null ==> fresh(b) && b.Valid() && !b.closed && b.known && b.src == src && b.pos == 0 && b.srcErr.None?
    ensures size >= 0 ==> b != null && b.size == size && src.at == 0
    ensures size < 0 && b != null && |src.data| < MAX_OFFSET ==> b.size == |src.data| && src.ending.AtEof?
    ensures err.Some? ==> size < 0 && (err.value == DiskFailed || (src.ending.Fault? && err.value == EndError(src.ending)))
  {
    var blob := new SpoolBlob(ramCap, src, size);
    if !blob.known {
      var eerr := blob.Ensure(MAX_OFFSET);
      if eerr.Some? {
        blob.Close();
        return null, eerr;
      }
      blob.size := blob.Length();
      blob.known := true;
    }
    return blob, None;
  }

  // ---- any sequence of calls against an in-memory reader --------------------------------------------------

  datatype Out = Bytes(content: seq<byte>, err: Option<Error>) | Offset(at: int, err: Option<Error>)

  datatype Op =
    | ReadAtOp(len: nat, off: nat)
    | ReadOp(len: nat)
    | SeekOp(offset: int, whence: int)
    | SizeOp
    | TellOp

  /** The whole stream in memory, with a cursor. */
  datatype Plain = Plain(data: seq<byte>, ending: Ending, size: int, pos: int)

  function PlainRead(data: seq<byte>, ending: Ending, len: nat, off: nat): Out {
    var content := Window(data, off, len);
    Bytes(content, if |content| < len then Some(EndError(ending)) else None)
  }

  function PlainSeek(size: int, pos: int, offset: int, whence: int): Out {
    var target := offset + if whence == 0 then 0 else if whence == 1 then pos else size;
    if whence !in {0, 1, 2} then Offset(0, Some(InvalidWhence))
    else if target < 0 then Offset(0, Some(NegativePosition))
    else Offset(target, None)
  }

  function PlainOut(s: Plain, op: Op): Out
    requires s.pos >= 0
  {
    match op
    case ReadAtOp(len, off) => PlainRead(s.data, s.ending, len, off)
    case ReadOp(len) => PlainRead(s.data, s.ending, len, s.pos)
    case SeekOp(offset, whence) => PlainSeek(s.size, s.pos, offset, whence)
    case SizeOp => Offset(s.size, None)
    case TellOp => Offset(s.pos, None)
  }

  function PlainNext(s: Plain, op: Op): (t: Plain)
    requires s.pos >= 0
    ensures t.pos >= 0
  {
    var out := PlainOut(s, op);
    match op
    case ReadOp(_) => s.(pos := s.pos + |out.content|)
    case SeekOp(_, _) => if out.err.None? then s.(pos := out.at) else s
    case _ => s
  }

  function PlainAfter(s: Plain, ops: seq<Op>): (t: Plain)
    requires s.pos >= 0
    ensures t.pos >= 0
  {
    if ops == [] then s else PlainNext(PlainAfter(s, ops[..|ops| - 1]), ops[|ops| - 1])
  }

  function PlainOuts(s: Plain, ops: seq<Op>): seq<Out>
    requires s.pos >= 0
  {
    if ops == [] then []
    else PlainOuts(s, ops[..|ops| - 1]) + [PlainOut(PlainAfter(s, ops[..|ops| - 1]), ops[|ops| - 1])]
  }

  /** After a seek to `o` a read starts at `o`, and the cursor is where it ended. */
  lemma SeekReadTell(s: Plain, o: nat, n: nat)
    requires s.pos >= 0
    ensures var from := if o <= |s.data| then s.data[o..] else [];
      var content := from[..Min(n, |from|)];
      && PlainOuts(s, [SeekOp(o, 0), ReadOp(n), TellOp])
         == [Offset(o, None),
             Bytes(content, if |content| == n then None else Some(EndError(s.ending))),
             Offset(o + |content|, None)]
  {
    hide PlainOuts, PlainAfter, Window;
    ThreeOuts(s, SeekOp(o, 0), ReadOp(n), TellOp);
    WindowIs(s.data, o, n);
    var t := s.(pos := o);
    assert PlainNext(s, SeekOp(o, 0)) == t && PlainOut(s, SeekOp(o, 0)) == Offset(o, None);
    assert PlainOut(t, ReadOp(n)) == PlainRead(s.data, s.ending, n, o);
  }

  lemma WindowIs(data: seq<byte>, o: nat, n: nat)
    ensures var from := if o <= |data| then data[o..] else []; Window(data, o, n) == from[..Min(n, |from|)]
  {
  }

  /** A relative seek adds to the cursor, one from the end to the size; neither depends on the other's base. */
  lemma SeekSeekTell(s: Plain, o: nat, d: int)
    requires s.pos >= 0
    ensures PlainOuts(s, [SeekOp(o, 0), SeekOp(d, 1), TellOp])
         == [Offset(o, None),
             if o + d < 0 then Offset(0, Some(NegativePosition)) else Offset(o + d, None),
             Offset(if o + d < 0 then o else o + d, None)]
    ensures PlainOuts(s, [SeekOp(o, 0), SeekOp(d, 2), TellOp])
         == [Offset(o, None),
             if s.size + d < 0 then Offset(0, Some(NegativePosition)) else Offset(s.size + d, None),
             Offset(if s.size + d < 0 then o else s.size + d, None)]
  {
    ThreeOuts(s, SeekOp(o, 0), SeekOp(d, 1), TellOp);
    ThreeOuts(s, SeekOp(o, 0), SeekOp(d, 2), TellOp);
  }

  lemma ThreeOuts(s: Plain, a: Op, b: Op, c: Op)
    requires s.pos >= 0
    ensures var t := PlainNext(s, a);
      PlainOuts(s, [a, b, c]) == [PlainOut(s, a), PlainOut(t, b), PlainOut(PlainNext(t, b), c)]
  {
    var ab, abc := [a, b], [a, b, c];
    assert [a][..0] == [] && ab[..1] == [a] && abc[..2] == ab;
    hide PlainOut, PlainNext;
    assert PlainAfter(s, []) == s;
    assert PlainAfter(s, [a]) == PlainNext(s, a) && PlainAfter(s, ab) == PlainNext(PlainNext(s, a), b);
    assert PlainOuts(s, []) == [];
    assert PlainOuts(s, [a]) == [PlainOut(s, a)];
    assert PlainOuts(s, ab) == [PlainOut(s, a), PlainOut(PlainNext(s, a), b)];
  }

  /** The end of the bytes a call asks for. */
  function OpEnd(s: Plain, op: Op): nat
    requires s.pos >= 0
  {
    match op
    case ReadAtOp(len, off) => off + len
    case ReadOp(len) => s.pos + len
    case _ => 0
  }

  /** The end of the furthest read. */
  function Furthest(s: Plain, ops: seq<Op>): nat
    requires s.pos >= 0
  {
    if ops == [] then 0
    else
      var end, rest := OpEnd(PlainAfter(s, ops[..|ops| - 1]), ops[|ops| - 1]), Furthest(s, ops[..|ops| - 1]);
      if rest <= end then end else rest
  }

  /** One call on the blob. */
  method Apply(b: SpoolBlob, op: Op) returns (out: Out)
    requires b.Valid() && !b.closed && b.known
    modifies b, b.src
    ensures b.Valid() && !b.closed && b.known && b.size == old(b.size)
    ensures old(b.srcErr.Some?) ==> b.srcErr == old(b.srcErr)
    ensures var s := Plain(b.src.data, b.src.ending, old(b.size), old(b.pos));
      b.srcErr != Some(DiskFailed) ==> out == PlainOut(s, op) && b.pos == PlainNext(s, op).pos
    ensures b.src.at != old(b.src.at) ==>
              b.src.at < OpEnd(Plain(b.src.data, b.src.ending, old(b.size), old(b.pos)), op) + CHUNK
  {
    hide b.Valid, b.Buffered, Window;
    match op
    case ReadAtOp(len, off) =>
      var p := new byte[len];
      var n, err := b.ReadAt(p, off);
      out := Bytes(p[..n], err);
    case ReadOp(len) =>
      var p := new byte[len];
      var n, err := b.Read(p);
      out := Bytes(p[..n], err);
    case SeekOp(offset, whence) =>
      var v, err := b.Seek(offset, whence);
      out := Offset(v, err);
    case SizeOp =>
      var v, err := b.Size();
      out := Offset(v, err);
    case TellOp =>
      out := Offset(b.pos, None);
  }

  /**
   * Any sequence of calls on an open blob gives what the in-memory reader gives, however the stream is chunked and
   * wherever the memory limit lies, and pulls less than one chunk past the furthest byte asked for.
   */
  method Replay(b: SpoolBlob, ops: seq<Op>) returns (outs: seq<Out>)
    requires b.Valid() && !b.closed && b.known
    modifies b, b.src
    ensures b.Valid() && !b.closed
    ensures var s := Plain(b.src.data, b.src.ending, old(b.size), old(b.pos));
      b.srcErr != Some(DiskFailed) ==>
        && outs == PlainOuts(s, ops)
        && b.pos == PlainAfter(s, ops).pos
        && (b.src.at == old(b.src.at) || b.src.at < Furthest(s, ops) + CHUNK)
  {
    outs := [];
    ghost var s := Plain(b.src.data, b.src.ending, b.size, b.pos);
    hide PlainOut, PlainNext, OpEnd;
    for i := 0 to |ops|
      invariant b.Valid() && !b.closed && b.known && b.size == s.size
      invariant b.srcErr != Some(DiskFailed) ==>
        && outs == PlainOuts(s, ops[..i])
        && PlainAfter(s, ops[..i]) == s.(pos := b.pos)
        && (b.src.at == old(b.src.at) || b.src.at < Furthest(s, ops[..i]) + CHUNK)
    {
      assert ops[..i + 1][..i] == ops[..i];
      ghost var before := s.(pos := b.pos);
      var out := Apply(b, ops[i]);
      assert b.srcErr != Some(DiskFailed) ==>
          Furthest(s, ops[..i + 1]) >= OpEnd(before, ops[i]) && Furthest(s, ops[..i + 1]) >= Furthest(s, ops[..i]);
      outs := outs + [out];
    }
    assert ops[..|ops|] == ops;
  }
}
