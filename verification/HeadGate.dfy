/** The head gate of a decoded text stream (internal/parser/textdoc/headgate.go). */
module HeadGate {
  import opened Base
  import Utf8

  /** `h` is the longest well-formed prefix of `b` of at most `n` bytes. */
  ghost predicate IsHead(h: seq<byte>, b: seq<byte>, n: nat) {
    && |h| <= n
    && h <= b
    && Utf8.Valid(h)
    && forall k | |h| < k <= Min(n, |b|) :: !Utf8.Valid(b[..k])
  }

  lemma HeadIsUnique(h1: seq<byte>, h2: seq<byte>, b: seq<byte>, n: nat)
    requires IsHead(h1, b, n) && IsHead(h2, b, n)
    ensures h1 == h2
  {
    assert h1 == b[..|h1|] && h2 == b[..|h2|];
  }

  /** Only the first `n` bytes of a stream decide its head. */
  lemma HeadOfPrefix(h: seq<byte>, b: seq<byte>, n: nat)
    ensures IsHead(h, b, n) <==> IsHead(h, b[..Min(n, |b|)], n)
  {
    var m := Min(n, |b|);
    assert forall k | 0 <= k <= m :: b[..m][..k] == b[..k];
    if IsHead(h, b[..m], n) {
      assert h == b[..m][..|h|] == b[..|h|];
    }
    if IsHead(h, b, n) {
      assert h == b[..|h|] == b[..m][..|h|];
    }
  }

  /** Cutting well-formed text loses at most three bytes, and what is left is made of whole runes. */
  lemma {:induction false} HeadOfValidText(h: seq<byte>, b: seq<byte>, n: nat)
    requires Utf8.Valid(b)
    requires IsHead(h, b, n)
    ensures |b| <= n ==> h == b
    ensures Min(n, |b|) - |h| <= 3
    ensures Utf8.DecodeAll(h) <= Utf8.DecodeAll(b)
    decreases |b|
  {
    assert h == b[..|h|];
    if |b| <= n {
      assert b[..|b|] == b;
    } else {
      var k := Utf8.RuneLen(b);
      Utf8.ValidPrefixes(b, |h|);
      if n >= k {
        HeadKeepsFirstRune(h, b, n);
        HeadOfValidText(h[k..], b[k..], n - k);
      }
    }
  }

  lemma HeadKeepsFirstRune(h: seq<byte>, b: seq<byte>, n: nat)
    requires Utf8.Valid(b) && IsHead(h, b, n)
    requires b != [] && Utf8.RuneLen(b) <= n
    ensures Utf8.RuneLen(b) <= |h| && Utf8.RuneLen(h) == Utf8.RuneLen(b) && Utf8.Rune(h) == Utf8.Rune(b)
    ensures IsHead(h[Utf8.RuneLen(b)..], b[Utf8.RuneLen(b)..], n - Utf8.RuneLen(b))
  {
    var k := Utf8.RuneLen(b);
    assert h == b[..|h|];
    Utf8.ValidPrefixes(b, |h|);
    Utf8.ValidPrefixes(b, k);
    assert Utf8.Valid(b[..k]);
    forall j | |h| - k < j <= Min(n - k, |b[k..]|) ensures !Utf8.Valid(b[k..][..j]) {
      Utf8.ValidPrefixes(b, k + j);
      assert !Utf8.Valid(b[..k + j]);
    }
  }

  /** `truncateUTF8`: shrink from the end until the bytes are well-formed. */
  method TruncateUtf8(b: seq<byte>, n: nat) returns (h: seq<byte>)
    ensures IsHead(h, b, n)
  {
    h := b;
    if |h| > n {
      h := h[..n];
    }
    while |h| > 0 && !Utf8.Valid(h)
      invariant h <= b && |h| <= n
      invariant forall k | |h| < k <= Min(n, |b|) :: !Utf8.Valid(b[..k])
      decreases |h|
    {
      assert h == b[..|h|];
      h := h[..|h| - 1];
    }
  }

  /**
   * `check` decides on a head whether the document is acceptable. The field `runs` logs the heads it was
   * called with, and the ghost field `stream` everything written.
   */
  class Gate {
    const limit: nat
    const check: seq<byte> -> bool
    var buf: seq<byte>
    var checked: bool
    var runs: seq<seq<byte>>
    ghost var stream: seq<byte>

    ghost predicate Valid()
      reads this
    {
      && buf <= stream
      && |buf| == Min(limit, |stream|)
      && (!checked ==> runs == [] && |buf| == |stream|)
      && (checked ==> |runs| == 1 && IsHead(runs[0], stream, limit))
    }

    constructor (limit: nat, check: seq<byte> -> bool)
      ensures Valid() && stream == [] && !checked && this.limit == limit && this.check == check
    {
      this.limit, this.check := limit, check;
      buf, checked, runs, stream := [], false, [], [];
    }

    method Head() returns (h: seq<byte>)
      requires Valid()
      ensures IsHead(h, stream, limit)
    {
      h := TruncateUtf8(buf, limit);
      HeadOfPrefix(h, stream, limit);
      assert buf == stream[..Min(limit, |stream|)];
    }

    /** `run`, reached once: by the write that fills the head, or by `Finish`. */
    method Run() returns (ok: bool)
      requires !checked && runs == [] && buf == stream[..Min(limit, |stream|)]
      modifies this`checked, this`runs
      ensures checked && |runs| == 1 && IsHead(runs[0], stream, limit) && ok == check(runs[0])
    {
      checked := true;
      var h := TruncateUtf8(buf, limit);
      HeadOfPrefix(h, stream, limit);
      runs := runs + [h];
      ok := check(h);
    }

    method Write(p: seq<byte>) returns (ok: bool)
      requires Valid() && (checked ==> |buf| == limit)
      modifies this
      ensures Valid() && stream == old(stream) + p
      ensures checked == (old(checked) || |stream| >= limit) && (checked ==> |buf| == limit)
      ensures ok == (old(checked) || !checked || check(runs[0]))
      ensures old(checked) ==> runs == old(runs)
    {
      ghost var before := stream;
      stream := stream + p;
      if checked {
        assert forall k | 0 <= k <= limit :: stream[..k] == before[..k];
        HeadOfPrefix(runs[0], before, limit);
        HeadOfPrefix(runs[0], stream, limit);
        assert stream[..Min(limit, |stream|)] == before[..Min(limit, |before|)];
      }
      if !checked && |buf| < limit {
        buf := buf + p[..Min(|p|, limit - |buf|)];
        assert buf == stream[..|buf|];
      }
      ok := true;
      if !checked && |buf| >= limit {
        ok := Run();
      }
    }

    method Finish() returns (ok: bool)
      requires Valid()
      modifies this
      ensures Valid() && checked && stream == old(stream)
      ensures old(checked) ==> ok && runs == old(runs)
      ensures !old(checked) ==> ok == check(runs[0])
    {
      ok := true;
      if !checked {
        ok := Run();
      }
    }
  }

  function Concat(parts: seq<seq<byte>>): seq<byte> {
    if parts == [] then [] else Concat(parts[..|parts| - 1]) + parts[|parts| - 1]
  }

  /**
   * A whole stream, however it is split into writes: the check runs exactly once, on the one head that
   * `IsHead` allows, and the verdict is the check's own. Writing stops at the first refusal.
   */
  method Feed(limit: nat, check: seq<byte> -> bool, parts: seq<seq<byte>>) returns (ok: bool, runs: seq<seq<byte>>)
    ensures |runs| == 1
    ensures IsHead(runs[0], Concat(parts), limit)
    ensures ok == check(runs[0])
  {
    var gate := new Gate(limit, check);
    var i := 0;
    ok := true;
    while i < |parts| && ok
      invariant 0 <= i <= |parts|
      invariant fresh(gate) && gate.limit == limit && gate.check == check
      invariant gate.Valid() && (gate.checked ==> |gate.buf| == limit)
      invariant gate.stream == Concat(parts[..i])
      invariant !ok ==> gate.checked
      invariant gate.checked ==> ok == check(gate.runs[0])
      decreases |parts| - i
    {
      ok := gate.Write(parts[i]);
      assert parts[..i + 1][..i] == parts[..i];
      i := i + 1;
    }
    if ok {
      ok := gate.Finish();
    }
    runs := gate.runs;
    ConcatPrefix(parts, i);
    assert gate.checked && (|gate.buf| == limit || i == |parts|);
    if i < |parts| {
      var whole := Concat(parts);
      HeadOfPrefix(runs[0], gate.stream, limit);
      HeadOfPrefix(runs[0], whole, limit);
      assert whole[..Min(limit, |whole|)] == gate.stream[..Min(limit, |gate.stream|)];
    } else {
      assert parts[..i] == parts;
    }
  }

  lemma {:induction false} ConcatPrefix(parts: seq<seq<byte>>, i: nat)
    requires i <= |parts|
    ensures Concat(parts[..i]) <= Concat(parts)
    decreases |parts|
  {
    if i == |parts| {
      assert parts[..i] == parts;
    } else {
      var init := parts[..|parts| - 1];
      ConcatPrefix(init, i);
      assert init[..i] == parts[..i];
    }
  }
}
