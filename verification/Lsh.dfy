/** Bands of a MinHash signature and their bucket hashes (internal/lsh/lsh.go). */
module Lsh {
  import opened Base
  import opened Words

  datatype Band = Band(index: nat, hash: int)

  const OFFSET: Word := 14695981039346656037
  const PRIME: Word := 1099511628211
  const PRIME_INVERSE: Word := 14886173955864302971

  const NUM_BANDS: nat := 25
  const ROWS_PER_BAND: nat := 5

  // ---- the bucket hash ------------------------------------------------------------------------------------

  /** One turn of the loop in `HashBand`: exclusive or with the row, multiplication, and a shift folded in. */
  function Round(h: Word, v: Word): Word {
    Fold(XorWord(h, v) * PRIME % MODULUS)
  }

  /** What was multiplied to get `h`. */
  function Unmix(h: Word): Word {
    Fold(h) * PRIME_INVERSE % MODULUS
  }

  lemma MixTrip(x: Word)
    ensures Unmix(Fold(x * PRIME % MODULUS)) == x
    ensures Fold(Unmix(x) * PRIME % MODULUS) == x
  {
    hide Xor, Fold, XorWord;
    var q := PRIME * PRIME_INVERSE / MODULUS;
    assert PRIME * PRIME_INVERSE == q * MODULUS + 1;
    FoldTwice(x * PRIME % MODULUS);
    TimesInverse(x, PRIME, PRIME_INVERSE, q);
    TimesInverse(Fold(x), PRIME_INVERSE, PRIME, q);
    FoldTwice(x);
  }

  /** For each row, a round is a bijection of the words it may start from, and for each start one of the rows. */
  lemma RoundIsBijection(h: Word, v: Word, target: Word)
    ensures Round(h, v) == target <==> h == XorWord(Unmix(target), v)
    ensures Round(h, v) == target <==> v == XorWord(h, Unmix(target))
  {
    hide Xor, Fold, XorWord, Unmix;
    MixTrip(XorWord(h, v));
    MixTrip(target);
    WordCancels(h, v);
    WordCancels(v, h);
    WordCancels(Unmix(target), v);
    WordCancels(Unmix(target), h);
  }

  /** The state after the rows, from the state `h`. */
  function HashFrom(h: Word, rows: seq<Word>): Word {
    if rows == [] then h else Round(HashFrom(h, rows[..|rows| - 1]), rows[|rows| - 1])
  }

  /** Go's conversion of an unsigned to a signed 64-bit integer. */
  function Signed(h: Word): int {
    Wrap(h, MODULUS / 2)
  }

  function BandHash(rows: seq<Word>): int {
    Signed(HashFrom(OFFSET, rows))
  }

  method HashBand(rows: seq<Word>) returns (hash: int)
    ensures hash == BandHash(rows)
  {
    var h := OFFSET;
    for i := 0 to |rows|
      invariant h == HashFrom(OFFSET, rows[..i])
    {
      assert rows[..i + 1][..i] == rows[..i];
      h := XorWord(h, rows[i]);
      h := h * PRIME % MODULUS;
      h := XorWord(h, h / HALF);
    }
    assert rows[..|rows|] == rows;
    hash := Signed(h);
  }

  /** The hash is the signed 64-bit integer congruent to the state. */
  lemma SignedMeans(h: Word)
    ensures -0x8000_0000_0000_0000 <= Signed(h) < 0x8000_0000_0000_0000
    ensures Signed(h) == h || Signed(h) == h - 0x1_0000_0000_0000_0000
  {
  }

  /** Each row takes one round, the first from the offset basis of FNV-1a. */
  lemma HashByRounds(rows: seq<Word>, v: Word)
    ensures BandHash([v]) == Signed(Round(14695981039346656037, v))
    ensures HashFrom(OFFSET, rows + [v]) == Round(HashFrom(OFFSET, rows), v)
  {
    hide Round, Signed;
    assert [v][..0] == [] && [v][0] == v;
    assert HashFrom(OFFSET, []) == 14695981039346656037;
    assert HashFrom(OFFSET, [v]) == Round(HashFrom(OFFSET, []), v);
    assert (rows + [v])[..|rows|] == rows;
  }

  /** Different states stay different through equal rows. */
  lemma {:induction false} StatesStayApart(h: Word, g: Word, rows: seq<Word>)
    requires h != g
    ensures HashFrom(h, rows) != HashFrom(g, rows)
  {
    hide Round, XorWord, Unmix;
    if rows != [] {
      var init, v := rows[..|rows| - 1], rows[|rows| - 1];
      StatesStayApart(h, g, init);
      RoundIsBijection(HashFrom(h, init), v, HashFrom(g, rows));
      RoundIsBijection(HashFrom(g, init), v, HashFrom(g, rows));
    }
  }

  lemma {:induction false} HashConcat(h: Word, a: seq<Word>, b: seq<Word>)
    ensures HashFrom(h, a + b) == HashFrom(HashFrom(h, a), b)
  {
    hide Round;
    if b == [] {
      assert a + b == a;
    } else {
      HashConcat(h, a, b[..|b| - 1]);
      assert (a + b)[..|a + b| - 1] == a + b[..|b| - 1];
    }
  }

  /** The bands differ in row `i` and nowhere else. */
  predicate OneRowApart(a: seq<Word>, b: seq<Word>, i: nat) {
    |a| == |b| && i < |a| && a[i] != b[i] && b == a[i := b[i]]
  }

  /** Bands that differ in exactly one row never share a bucket hash. */
  lemma OneRowDecides(a: seq<Word>, b: seq<Word>, i: nat)
    requires OneRowApart(a, b, i)
    ensures BandHash(a) != BandHash(b)
  {
    hide Round, XorWord, Unmix, HashFrom;
    var h := HashFrom(OFFSET, a[..i]);
    Split(a, i);
    Split(b, i);
    assert a[..i] == b[..i] && a[i + 1..] == b[i + 1..];
    RoundIsBijection(h, a[i], Round(h, b[i]));
    RoundIsBijection(h, b[i], Round(h, b[i]));
    StatesStayApart(Round(h, a[i]), Round(h, b[i]), a[i + 1..]);
  }

  lemma Split(a: seq<Word>, i: nat)
    requires i < |a|
    ensures HashFrom(OFFSET, a) == HashFrom(Round(HashFrom(OFFSET, a[..i]), a[i]), a[i + 1..])
  {
    hide Round;
    assert a == a[..i] + [a[i]] + a[i + 1..];
    assert HashFrom(HashFrom(OFFSET, a[..i]), [a[i]]) == Round(HashFrom(OFFSET, a[..i]), a[i]);
    HashConcat(OFFSET, a[..i], [a[i]]);
    HashConcat(OFFSET, a[..i] + [a[i]], a[i + 1..]);
  }

  // ---- bands of a signature -------------------------------------------------------------------------------

  /** How many full bands a signature of `len` rows gives. */
  function BandCount(len: nat, numBands: int, rowsPerBand: int): nat {
    if numBands <= 0 || rowsPerBand <= 0 then 0 else Min(numBands, len / rowsPerBand)
  }

  /** Band `i` ends inside the signature. */
  lemma BandFits(len: nat, numBands: int, rowsPerBand: int, i: nat)
    requires i < BandCount(len, numBands, rowsPerBand)
    ensures 0 <= i * rowsPerBand < (i + 1) * rowsPerBand == i * rowsPerBand + rowsPerBand <= len
  {
    var n := len / rowsPerBand;
    WholePart(len, rowsPerBand);
    TimesMonotone(i + 1, n, rowsPerBand);
    TimesNext(i, rowsPerBand);
  }

  lemma WholePart(len: nat, d: int)
    requires d > 0
    ensures len / d * d <= len
  {
  }

  lemma TimesMonotone(x: nat, y: nat, d: int)
    requires x <= y && d > 0
    ensures x * d <= y * d
  {
  }

  lemma TimesNext(x: nat, d: int)
    requires d > 0
    ensures 0 <= x * d < (x + 1) * d == x * d + d
  {
  }

  /** The rows of band `i`. */
  function BandRows(sig: seq<Word>, numBands: int, rowsPerBand: int, i: nat): (rows: seq<Word>)
    requires i < BandCount(|sig|, numBands, rowsPerBand)
    ensures |rows| == rowsPerBand
  {
    BandFits(|sig|, numBands, rowsPerBand, i);
    sig[i * rowsPerBand..(i + 1) * rowsPerBand]
  }

  function BandAt(sig: seq<Word>, numBands: int, rowsPerBand: int, i: nat): Band
    requires i < BandCount(|sig|, numBands, rowsPerBand)
  {
    Band(i, BandHash(BandRows(sig, numBands, rowsPerBand, i)))
  }

  function Bands(sig: seq<Word>, numBands: int, rowsPerBand: int): (bands: seq<Band>)
    ensures |bands| == BandCount(|sig|, numBands, rowsPerBand)
  {
    seq(BandCount(|sig|, numBands, rowsPerBand),
        i requires 0 <= i < BandCount(|sig|, numBands, rowsPerBand) => BandAt(sig, numBands, rowsPerBand, i))
  }

  method ComputeBandsCustom(sig: seq<Word>, numBands: int, rowsPerBand: int) returns (bands: seq<Band>)
    ensures bands == Bands(sig, numBands, rowsPerBand)
  {
    if numBands <= 0 || rowsPerBand <= 0 || |sig| == 0 {
      assert BandCount(|sig|, numBands, rowsPerBand) == 0;
      return [];
    }
    var n := Min(numBands, |sig| / rowsPerBand);
    bands := [];
    for i := 0 to n
      invariant |bands| == i
      invariant forall j | 0 <= j < i :: bands[j] == BandAt(sig, numBands, rowsPerBand, j)
    {
      BandFits(|sig|, numBands, rowsPerBand, i);
      var start := i * rowsPerBand;
      var hash := HashBand(sig[start..start + rowsPerBand]);
      bands := bands + [Band(i, hash)];
    }
  }

  // ---- which signatures meet in a bucket ------------------------------------------------------------------

  /** The signatures have a band in common: the same index with the same hash. */
  ghost predicate Meet(a: seq<Word>, b: seq<Word>, numBands: int, rowsPerBand: int) {
    exists band :: band in Bands(a, numBands, rowsPerBand) && band in Bands(b, numBands, rowsPerBand)
  }

  /** At how many of the first `n` rows the signatures differ. */
  function Differences(a: seq<Word>, b: seq<Word>, n: nat): nat
    requires n <= |a| && n <= |b|
  {
    if n == 0 then 0 else Differences(a, b, n - 1) + if a[n - 1] == b[n - 1] then 0 else 1
  }

  /** Equal stretches add no differences; a stretch without one is equal. */
  lemma {:induction false} DifferencesGrow(a: seq<Word>, b: seq<Word>, m: nat, n: nat)
    requires m <= n <= |a| && n <= |b|
    ensures Differences(a, b, n) >= Differences(a, b, m)
    ensures Differences(a, b, n) == Differences(a, b, m) <==> a[m..n] == b[m..n]
    decreases n
  {
    if m < n {
      DifferencesGrow(a, b, m, n - 1);
      var x, y := a[m..n], b[m..n];
      assert x == a[m..n - 1] + [a[n - 1]] && y == b[m..n - 1] + [b[n - 1]];
      assert a[m..n - 1] == x[..n - 1 - m] && b[m..n - 1] == y[..n - 1 - m];
      assert a[n - 1] == x[n - 1 - m] && b[n - 1] == y[n - 1 - m];
    } else {
      assert a[m..n] == b[m..n];
    }
  }

  /** When each of the first `k` bands has a difference, there are `k` of them. */
  lemma {:induction false} OneDifferenceEach(a: seq<Word>, b: seq<Word>, numBands: int, rowsPerBand: int, k: nat)
    requires |a| == |b| && k <= BandCount(|a|, numBands, rowsPerBand)
    requires forall i: nat | i < k :: BandRows(a, numBands, rowsPerBand, i) != BandRows(b, numBands, rowsPerBand, i)
    ensures k == 0 || k * rowsPerBand <= |a|
    ensures Differences(a, b, if k == 0 then 0 else k * rowsPerBand) >= k
    decreases k
  {
    if k > 0 {
      OneDifferenceEach(a, b, numBands, rowsPerBand, k - 1);
      BandFits(|a|, numBands, rowsPerBand, k - 1);
      assert BandRows(a, numBands, rowsPerBand, k - 1) != BandRows(b, numBands, rowsPerBand, k - 1);
      DifferencesGrow(a, b, (k - 1) * rowsPerBand, k * rowsPerBand);
    }
  }

  /** Pigeonhole: with fewer differences than bands some band has none, and the signatures meet there. */
  lemma FewDifferencesMeet(a: seq<Word>, b: seq<Word>, numBands: int, rowsPerBand: int)
    requires |a| == |b|
    requires var n := BandCount(|a|, numBands, rowsPerBand);
      n > 0 && n * rowsPerBand <= |a| && Differences(a, b, n * rowsPerBand) < n
    ensures Meet(a, b, numBands, rowsPerBand)
  {
    hide Differences, BandRows, BandHash, BandCount;
    var n := BandCount(|a|, numBands, rowsPerBand);
    if i: nat :| i < n && BandRows(a, numBands, rowsPerBand, i) == BandRows(b, numBands, rowsPerBand, i) {
      var band := BandAt(a, numBands, rowsPerBand, i);
      assert Bands(a, numBands, rowsPerBand)[i] == band && Bands(b, numBands, rowsPerBand)[i] == band;
      assert band in Bands(a, numBands, rowsPerBand) && band in Bands(b, numBands, rowsPerBand);
    } else {
      OneDifferenceEach(a, b, numBands, rowsPerBand, n);
    }
  }

  /** With the default 25 bands of 5 rows: at most 24 differences in the first 125 of 128 rows always meet. */
  lemma DefaultRecall(a: seq<Word>, b: seq<Word>)
    requires |a| == |b| == 128 && Differences(a, b, 125) <= 24
    ensures Meet(a, b, NUM_BANDS, ROWS_PER_BAND)
  {
    FewDifferencesMeet(a, b, NUM_BANDS, ROWS_PER_BAND);
  }

  /** The bound is sharp: signatures one row apart in every band, so with as many differences as bands, never meet. */
  lemma OneRowApartEverywhere(a: seq<Word>, b: seq<Word>, numBands: int, rowsPerBand: int, at: nat -> nat)
    requires |a| == |b|
    requires forall i: nat | i < BandCount(|a|, numBands, rowsPerBand) ::
               OneRowApart(BandRows(a, numBands, rowsPerBand, i), BandRows(b, numBands, rowsPerBand, i), at(i))
    ensures !Meet(a, b, numBands, rowsPerBand)
  {
    forall band | band in Bands(a, numBands, rowsPerBand) ensures band !in Bands(b, numBands, rowsPerBand) {
      var i := band.index;
      OneRowDecides(BandRows(a, numBands, rowsPerBand, i), BandRows(b, numBands, rowsPerBand, i), at(i));
    }
  }
}
