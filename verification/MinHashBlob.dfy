/** MinHash signatures as little-endian blobs (internal/processor/scan.go:557-580). */
module MinHashBlob {
  import opened Base
  import opened Words

  /** The `n` lowest bytes of `w`, lowest first. */
  function LittleEndian(w: nat, n: nat): (r: seq<byte>)
    ensures |r| == n
  {
    if n == 0 then [] else [w % 256] + LittleEndian(w / 256, n - 1)
  }

  function Value(b: seq<byte>): nat {
    if b == [] then 0 else b[0] + 256 * Value(b[1..])
  }

  function Bound(n: nat): (p: nat)
    ensures p > 0
  {
    if n == 0 then 1 else 256 * Bound(n - 1)
  }

  lemma EightBytes()
    ensures Bound(8) == MODULUS
  {
    assert Bound(4) == 0x1_0000_0000;
    assert Bound(8) == 256 * Bound(7) && Bound(7) == 256 * Bound(6) && Bound(6) == 256 * Bound(5) && Bound(5) == 256 * Bound(4);
  }

  lemma {:induction false} ValueBounded(b: seq<byte>)
    ensures Value(b) < Bound(|b|)
  {
    if b != [] {
      ValueBounded(b[1..]);
    }
  }

  lemma {:induction false} ValueOfBytes(w: nat, n: nat)
    requires w < Bound(n)
    ensures Value(LittleEndian(w, n)) == w
  {
    if n > 0 {
      ValueOfBytes(w / 256, n - 1);
      assert LittleEndian(w, n)[1..] == LittleEndian(w / 256, n - 1);
    }
  }

  lemma {:induction false} BytesOfValue(b: seq<byte>)
    ensures LittleEndian(Value(b), |b|) == b
  {
    if b != [] {
      BytesOfValue(b[1..]);
      assert Value(b) % 256 == b[0] && Value(b) / 256 == Value(b[1..]);
      assert b == [b[0]] + b[1..];
    }
  }

  function WordAt(b: seq<byte>): (w: Word)
    requires |b| == 8
  {
    ValueBounded(b);
    EightBytes();
    Value(b)
  }

  function Encoded(sig: seq<Word>): (r: seq<byte>)
    ensures |r| == 8 * |sig|
  {
    if sig == [] then [] else Encoded(sig[..|sig| - 1]) + LittleEndian(sig[|sig| - 1], 8)
  }

  /** The whole words of a blob; bytes left over are ignored. */
  function Decoded(b: seq<byte>): (r: seq<Word>)
    ensures |r| == |b| / 8
  {
    seq(|b| / 8, i requires 0 <= i < |b| / 8 => WordAt(b[i * 8..i * 8 + 8]))
  }

  lemma DecodedAppend(b: seq<byte>, last: seq<byte>)
    requires |b| % 8 == 0 && |last| == 8
    ensures Decoded(b + last) == Decoded(b) + [WordAt(last)]
  {
    hide Value, WordAt;
    var all, n := b + last, |b| / 8;
    forall i | 0 <= i <= n ensures all[i * 8..i * 8 + 8] == if i < n then b[i * 8..i * 8 + 8] else last {
    }
  }

  lemma EncodedAppend(sig: seq<Word>, w: Word)
    ensures Encoded(sig + [w]) == Encoded(sig) + LittleEndian(w, 8)
  {
    assert (sig + [w])[..|sig|] == sig;
  }

  /** Byte `k` of word `i` is its digit `k` to the base 256: the lowest byte comes first. */
  lemma ByteAt(sig: seq<Word>, i: nat, k: nat)
    requires i < |sig| && k < 8
    ensures Encoded(sig)[8 * i + k] == sig[i] / Bound(k) % 256
  {
    BytesAt(sig, i);
    DigitAt(sig[i], 8, k);
    hide LittleEndian, Encoded;
    assert Encoded(sig)[8 * i + k] == Encoded(sig)[8 * i..8 * i + 8][k];
  }

  lemma {:induction false} BytesAt(sig: seq<Word>, i: nat)
    requires i < |sig|
    ensures Encoded(sig)[8 * i..8 * i + 8] == LittleEndian(sig[i], 8)
    decreases |sig|
  {
    hide LittleEndian;
    var n := |sig| - 1;
    if i < n {
      BytesAt(sig[..n], i);
    }
  }

  lemma {:induction false} DigitAt(w: nat, n: nat, k: nat)
    requires k < n
    ensures LittleEndian(w, n)[k] == w / Bound(k) % 256
  {
    if k > 0 {
      DigitAt(w / 256, n - 1, k - 1);
      DivideTwice(w, Bound(k - 1));
    } else {
      assert w / 1 == w;
    }
  }

  lemma DivideTwice(w: nat, p: nat)
    requires p > 0
    ensures w / 256 / p == w / (256 * p)
  {
    var q, r := w / 256 / p, w / 256 % p;
    assert w == 256 * (w / 256) + w % 256;
    assert w / 256 == p * q + r;
    assert w == (256 * p) * q + (256 * r + w % 256);
    Quotient(w, 256 * p, q, 256 * r + w % 256);
  }

  lemma WordBack(w: Word)
    ensures WordAt(LittleEndian(w, 8)) == w
  {
    EightBytes();
    ValueOfBytes(w, 8);
    hide LittleEndian, Value, Bound;
  }

  /** Every signature comes back from its blob. */
  lemma {:induction false} DecodeEncode(sig: seq<Word>)
    ensures Decoded(Encoded(sig)) == sig
  {
    if sig == [] {
    } else {
      var init, last := sig[..|sig| - 1], sig[|sig| - 1];
      assert sig == init + [last];
      WordBack(last);
      hide LittleEndian, Value, Decoded, Encoded, WordAt, Bound;
      DecodeEncode(init);
      DecodedAppend(Encoded(init), LittleEndian(last, 8));
      EncodedAppend(init, last);
    }
  }

  /** Bytes that do not fill a word are not looked at. */
  lemma RestIsIgnored(b: seq<byte>, rest: seq<byte>)
    requires |b| % 8 == 0 && |rest| < 8
    ensures Decoded(b + rest) == Decoded(b)
  {
    hide WordAt;
    assert |b + rest| / 8 == |b| / 8;
    forall i | 0 <= i < |b| / 8 ensures (b + rest)[i * 8..i * 8 + 8] == b[i * 8..i * 8 + 8] {
    }
  }

  /** Every blob of whole words comes back from its signature. */
  lemma {:induction false} EncodeDecode(b: seq<byte>)
    requires |b| % 8 == 0
    ensures Encoded(Decoded(b)) == b
    decreases |b|
  {
    if b == [] {
      assert Decoded(b) == [];
    } else {
      hide LittleEndian, Value, Decoded, Encoded;
      var n := |b| - 8;
      EncodeDecode(b[..n]);
      DecodedAppend(b[..n], b[n..]);
      EncodedAppend(Decoded(b[..n]), WordAt(b[n..]));
      BytesOfValue(b[n..]);
      assert b == b[..n] + b[n..];
    }
  }

  method EncodeMinHash(sig: seq<Word>) returns (b: seq<byte>)
    ensures b == Encoded(sig)
  {
    if |sig| == 0 {
      return [];
    }
    var blob := new byte[|sig| * 8](_ => 0);
    for i := 0 to |sig|
      invariant blob[..i * 8] == Encoded(sig[..i])
    {
      PutUint64(blob, i * 8, sig[i]);
      assert sig[..i + 1][..i] == sig[..i];
    }
    assert sig[..|sig|] == sig;
    return blob[..];
  }

  /** `binary.LittleEndian.PutUint64`. */
  method PutUint64(blob: array<byte>, at: nat, v: Word)
    requires at + 8 <= blob.Length
    modifies blob
    ensures blob[..at + 8] == old(blob[..at]) + LittleEndian(v, 8)
  {
    var rest: nat := v;
    for k := 0 to 8
      invariant blob[..at + k] + LittleEndian(rest, 8 - k) == old(blob[..at]) + LittleEndian(v, 8)
    {
      assert LittleEndian(rest, 8 - k) == [rest % 256] + LittleEndian(rest / 256, 8 - k - 1);
      ghost var before := blob[..at + k];
      blob[at + k] := rest % 256;
      assert blob[..at + k + 1] == before + [rest % 256];
      rest := rest / 256;
    }
  }

  method DecodeMinHash(b: seq<byte>) returns (sig: seq<Word>)
    ensures sig == Decoded(b)
  {
    sig := [];
    if |b| == 0 {
      return;
    }
    for i := 0 to |b| / 8
      invariant |sig| == i && forall j | 0 <= j < i :: sig[j] == Decoded(b)[j]
    {
      sig := sig + [WordAt(b[i * 8..i * 8 + 8])];
    }
  }
}
