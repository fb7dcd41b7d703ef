/** UTF-8 as section 3 of RFC 3629 defines it: encoding, and the well-formed sequences of its section 4. */
module Utf8 {
  import opened Base

  type Scalar = r: int | 0 <= r < 0xD800 || 0xE000 <= r < 0x110000

  const REPLACEMENT: Scalar := 0xFFFD

  function Encode(r: Scalar): (b: seq<byte>)
    ensures 1 <= |b| <= 4
  {
    if r < 0x80 then [r]
    else if r < 0x800 then [0xC0 + r / 0x40, 0x80 + r % 0x40]
    else if r < 0x10000 then [0xE0 + r / 0x1000, 0x80 + r / 0x40 % 0x40, 0x80 + r % 0x40]
    else [0xF0 + r / 0x40000, 0x80 + r / 0x1000 % 0x40, 0x80 + r / 0x40 % 0x40, 0x80 + r % 0x40]
  }

  function EncodeAll(rs: seq<Scalar>): (b: seq<byte>) {
    if rs == [] then [] else Encode(rs[0]) + EncodeAll(rs[1..])
  }

  predicate Tail(b: byte) {
    0x80 <= b < 0xC0
  }

  /** The number of bytes of the well-formed code point `b` starts with, 0 when there is none. */
  function RuneLen(b: seq<byte>): (n: nat)
    ensures n <= |b| && n <= 4
  {
    if |b| == 0 then 0
    else if b[0] < 0x80 then 1
    else if |b| < 2 then 0
    else if 0xC2 <= b[0] < 0xE0 then if Tail(b[1]) then 2 else 0
    else if |b| < 3 then 0
    else if 0xE0 <= b[0] < 0xF0 then
      var low := if b[0] == 0xE0 then 0xA0 else 0x80;
      var high := if b[0] == 0xED then 0xA0 else 0xC0;
      if low <= b[1] < high && Tail(b[2]) then 3 else 0
    else if |b| < 4 then 0
    else if 0xF0 <= b[0] < 0xF5 then
      var low := if b[0] == 0xF0 then 0x90 else 0x80;
      var high := if b[0] == 0xF4 then 0x90 else 0xC0;
      if low <= b[1] < high && Tail(b[2]) && Tail(b[3]) then 4 else 0
    else 0
  }

  /** The scalar the first `RuneLen(b)` bytes spell. */
  function Rune(b: seq<byte>): (r: Scalar)
    requires RuneLen(b) > 0
  {
    var n := RuneLen(b);
    if n == 1 then b[0]
    else if n == 2 then Bits(b[0] - 0xC0, b[1])
    else if n == 3 then Bits(Bits(b[0] - 0xE0, b[1]), b[2])
    else Bits(Bits(Bits(b[0] - 0xF0, b[1]), b[2]), b[3])
  }

  /** Six more bits from a continuation byte. */
  function Bits(high: int, tail: byte): int {
    high * 0x40 + (tail - 0x80)
  }

  predicate Valid(b: seq<byte>)
    decreases |b|
  {
    b == [] || (RuneLen(b) > 0 && Valid(b[RuneLen(b)..]))
  }

  function DecodeAll(b: seq<byte>): (rs: seq<Scalar>)
    requires Valid(b)
    decreases |b|
  {
    if b == [] then [] else [Rune(b)] + DecodeAll(b[RuneLen(b)..])
  }

  /** A well-formed code point at the head of a string does not depend on what follows it. */
  lemma RuneLenLocal(a: seq<byte>, b: seq<byte>)
    ensures RuneLen(a) > 0 ==> RuneLen(a + b) == RuneLen(a) && Rune(a + b) == Rune(a)
    ensures RuneLen(a + b) <= |a| ==> RuneLen(a) == RuneLen(a + b)
  {
    assert forall i :: 0 <= i < |a| ==> (a + b)[i] == a[i];
  }

  lemma EncodeOne(r: Scalar)
    ensures RuneLen(Encode(r)) == |Encode(r)| && Rune(Encode(r)) == r
  {
    var q := r / 0x40;
    var q2 := q / 0x40;
    assert r == q * 0x40 + r % 0x40;
    assert q == q2 * 0x40 + q % 0x40;
    if r >= 0x800 {
      assert r / 0x1000 == q2;
    }
    if r >= 0x10000 {
      assert r / 0x40000 == q2 / 0x40;
      assert r / 0x1000 % 0x40 == q2 % 0x40;
      assert q2 == q2 / 0x40 * 0x40 + q2 % 0x40;
    }
  }

  lemma ReadOne(b: seq<byte>)
    requires RuneLen(b) > 0
    ensures Encode(Rune(b)) == b[..RuneLen(b)]
  {
    var n := RuneLen(b);
    if n == 2 {
      SplitBits(b[0] - 0xC0, b[1]);
    } else if n == 3 {
      ReadThree(b);
    } else if n == 4 {
      ReadFour(b);
    }
  }

  lemma SplitBits(high: nat, tail: byte)
    requires Tail(tail)
    ensures Bits(high, tail) / 0x40 == high && Bits(high, tail) % 0x40 == tail - 0x80
  {
  }

  lemma DivideTwice(r: nat)
    ensures r / 0x1000 == r / 0x40 / 0x40
    ensures r / 0x40000 == r / 0x1000 / 0x40
  {
  }

  lemma ReadThree(b: seq<byte>)
    requires RuneLen(b) == 3
    ensures Encode(Rune(b)) == [b[0], b[1], b[2]]
  {
    var q := Bits(b[0] - 0xE0, b[1]);
    SplitBits(b[0] - 0xE0, b[1]);
    SplitBits(q, b[2]);
    DivideTwice(Rune(b));
    assert 0x20 <= q < 0x400;
    hide Bits, RuneLen;
  }

  lemma ReadFour(b: seq<byte>)
    requires RuneLen(b) == 4
    ensures Encode(Rune(b)) == [b[0], b[1], b[2], b[3]]
  {
    var q := Bits(b[0] - 0xF0, b[1]);
    SplitBits(b[0] - 0xF0, b[1]);
    SplitBits(q, b[2]);
    SplitBits(Bits(q, b[2]), b[3]);
    DivideTwice(Rune(b));
    assert 0x10 <= q < 0x110;
    assert Rune(b) == Bits(Bits(q, b[2]), b[3]) >= 0x10000;
    hide Bits, RuneLen, Rune;
  }

  lemma EncodeThenRead(r: Scalar, rest: seq<byte>)
    ensures RuneLen(Encode(r) + rest) == |Encode(r)|
    ensures Rune(Encode(r) + rest) == r
  {
    EncodeOne(r);
    RuneLenLocal(Encode(r), rest);
  }

  /** Decoding undoes encoding, for every sequence of scalars. */
  lemma {:induction false} RoundTrip(rs: seq<Scalar>)
    ensures Valid(EncodeAll(rs))
    ensures DecodeAll(EncodeAll(rs)) == rs
  {
    if rs != [] {
      RoundTrip(rs[1..]);
      EncodeThenRead(rs[0], EncodeAll(rs[1..]));
      hide RuneLen, Encode, Rune;
      assert EncodeAll(rs)[|Encode(rs[0])|..] == EncodeAll(rs[1..]);
    }
  }

  /** Encoding undoes decoding: a well-formed string is the encoding of exactly one scalar sequence. */
  lemma {:induction false} ReverseTrip(b: seq<byte>)
    requires Valid(b)
    ensures EncodeAll(DecodeAll(b)) == b
    decreases |b|
  {
    hide RuneLen, Rune, Encode;
    if b != [] {
      var n := RuneLen(b);
      ReverseTrip(b[n..]);
      ReadOne(b);
      assert DecodeAll(b) == [Rune(b)] + DecodeAll(b[n..]);
      EncodeAllCons(Rune(b), DecodeAll(b[n..]));
      assert b[..n] + b[n..] == b;
    }
  }

  lemma EncodeAllCons(r: Scalar, rs: seq<Scalar>)
    ensures EncodeAll([r] + rs) == Encode(r) + EncodeAll(rs)
  {
    assert ([r] + rs)[1..] == rs;
  }

  lemma {:induction false} ValidConcat(a: seq<byte>, b: seq<byte>)
    requires Valid(a)
    ensures Valid(a + b) == Valid(b)
    decreases |a|
  {
    if a == [] {
      assert a + b == b;
    } else {
      RuneLenLocal(a, b);
      hide RuneLen, Rune;
      ValidConcat(a[RuneLen(a)..], b);
      assert (a + b)[RuneLen(a)..] == a[RuneLen(a)..] + b;
    }
  }

  /** Cutting `b` after its first code point, or inside it. */
  lemma ValidPrefixes(b: seq<byte>, j: nat)
    requires b != [] && Valid(b) && j <= |b|
    ensures 1 <= RuneLen(b) <= 4
    ensures 0 < j < RuneLen(b) ==> !Valid(b[..j])
    ensures j >= RuneLen(b) ==> b[..j][RuneLen(b)..] == b[RuneLen(b)..][..j - RuneLen(b)]
    ensures j >= RuneLen(b) ==> RuneLen(b[..j]) == RuneLen(b) && Rune(b[..j]) == Rune(b)
  {
    hide RuneLen, Rune;
    RuneLenLocal(b[..j], b[j..]);
    assert b[..j] + b[j..] == b;
  }
}
