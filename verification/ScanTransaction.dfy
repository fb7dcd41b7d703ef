/** The code of the transaction in `parseEbook` (internal/processor/scan.go:368-506), step by step. */
module ScanTransaction {
  import opened Base
  import opened Words
  import opened Lsh
  import opened MinHashBlob
  import opened Grouping

  /** Files whose bands are in the bucket table under one of `bands`: what the lookups return together. */
  ghost predicate InBucket(buckets: set<(Band, Id)>, bands: seq<Band>, f: Id) {
    exists band :: band in bands && (band, f) in buckets
  }

  /** The lookups find the files a scan of all signatures would find. */
  lemma LookupFindsAll(files: Files, buckets: set<(Band, Id)>, sig: seq<Word>, f: Id)
    requires Indexed(files, buckets)
    ensures InBucket(buckets, BandsOf(sig), f) <==> f in files && Meet(sig, SigOf(files, f), NUM_BANDS, ROWS_PER_BAND)
  {
    hide Decoded, Bands;
    if f in files && Meet(sig, SigOf(files, f), NUM_BANDS, ROWS_PER_BAND) {
      var band :| band in Bands(sig, NUM_BANDS, ROWS_PER_BAND) && band in Bands(SigOf(files, f), NUM_BANDS, ROWS_PER_BAND);
      assert band in BandsOf(SigOf(files, f));
      assert (band, f) in buckets;
    }
  }

  method CreateAuthors(authors: set<string>, names: seq<string>) returns (r: set<string>)
    ensures r == authors + (set a | a in names)
  {
    r := authors;
    for i := 0 to |names|
      invariant r == authors + (set a | a in names[..i])
    {
      if names[i] !in r {
        r := r + {names[i]};
      }
    }
  }

  /** Links the file with its authors; the second link to the same author violates the primary key. */
  method LinkFileAuthors(links: set<(Id, string)>, f: Id, names: seq<string>) returns (ok: bool, r: set<(Id, string)>)
    requires forall a :: (f, a) !in links
    ensures ok <==> Distinct(names)
    ensures ok ==> r == links + (set a | a in names :: (f, a))
  {
    r := links;
    for i := 0 to |names|
      invariant r == links + (set a | a in names[..i] :: (f, a))
      invariant Distinct(names[..i])
    {
      if (f, names[i]) in r {
        assert exists j :: 0 <= j < i && names[j] == names[i];
        return false, r;
      }
      r := r + {(f, names[i])};
    }
    assert names[..|names|] == names;
    return true, r;
  }

  method LinkBookAuthors(links: set<(Id, string)>, b: Id, names: seq<string>) returns (r: set<(Id, string)>)
    ensures r == links + (set a | a in names :: (b, a))
  {
    r := links;
    for i := 0 to |names|
      invariant r == links + (set a | a in names[..i] :: (b, a))
    {
      r := r + {(b, names[i])};
    }
    assert names[..|names|] == names;
  }

  method CreateBuckets(buckets: set<(Band, Id)>, bands: seq<Band>, f: Id) returns (r: set<(Band, Id)>)
    ensures r == buckets + (set band | band in bands :: (band, f))
  {
    r := buckets;
    for i := 0 to |bands|
      invariant r == buckets + (set band | band in bands[..i] :: (band, f))
    {
      r := r + {(bands[i], f)};
    }
    assert bands[..|bands|] == bands;
  }

  /** One lookup per band, collected in a map from file to signature blob. */
  method FindCandidates(files: Files, buckets: set<(Band, Id)>, bands: seq<Band>, self: Id)
    returns (candidates: map<Id, seq<byte>>)
    ensures forall f :: f in candidates <==> f in files && f != self && InBucket(buckets, bands, f)
    ensures forall f | f in candidates :: candidates[f] == files[f].minhash
  {
    candidates := map[];
    for i := 0 to |bands|
      invariant forall f :: f in candidates <==> f in files && f != self && InBucket(buckets, bands[..i], f)
      invariant forall f | f in candidates :: candidates[f] == files[f].minhash
    {
      ghost var before := candidates;
      var rows := set f | f in files && (bands[i], f) in buckets && f != self;
      candidates := candidates + map f | f in rows :: files[f].minhash;
      assert bands[..i + 1] == bands[..i] + [bands[i]];
      forall f ensures f in candidates <==> f in files && f != self && InBucket(buckets, bands[..i + 1], f) {
        assert f in candidates <==> f in before || f in rows;
      }
    }
    assert bands[..|bands|] == bands;
  }

  /** The most similar candidate at or above the threshold, 0 if there is none; the map is visited in any order. */
  method BestMatch(sim: Similarity, sig: seq<Word>, candidates: map<Id, seq<byte>>) returns (best: Id)
    requires 0 !in candidates
    ensures best == 0 <==> forall f | f in candidates :: sim(sig, Decoded(candidates[f])) < MIN_SIMILARITY
    ensures best != 0 ==> best in candidates && sim(sig, Decoded(candidates[best])) >= MIN_SIMILARITY
    ensures best != 0 ==> forall f | f in candidates ::
              sim(sig, Decoded(candidates[f])) <= sim(sig, Decoded(candidates[best]))
  {
    hide Decoded;
    best := 0;
    var bestSimilarity := 0.0;
    var left := candidates.Keys;
    while left != {}
      invariant left <= candidates.Keys
      invariant best == 0 ==> bestSimilarity == 0.0
      invariant best != 0 ==> best in candidates && bestSimilarity == sim(sig, Decoded(candidates[best])) >= MIN_SIMILARITY
      invariant forall f | f in candidates && f !in left ::
                  sim(sig, Decoded(candidates[f])) < MIN_SIMILARITY
                  || (best != 0 && sim(sig, Decoded(candidates[f])) <= bestSimilarity)
      decreases |left|
    {
      var c :| c in left;
      left := left - {c};
      var decoded := DecodeMinHash(candidates[c]);
      var s := sim(sig, decoded);
      if s >= MIN_SIMILARITY && s > bestSimilarity {
        bestSimilarity := s;
        best := c;
      }
    }
  }

  /** The candidate loop picks a nearest file, if any is near. */
  method FindMatch(files: Files, buckets: set<(Band, Id)>, sim: Similarity, sig: seq<Word>, self: Id) returns (best: Id)
    requires self !in files && 0 !in files && (forall f | f in files :: f < self) && Indexed(files, buckets)
    ensures best == 0 <==> Alone(files, sim, sig, self)
    ensures best != 0 ==> Nearest(files, sim, sig, self, best)
  {
    hide Decoded, Bands;
    best := 0;
    var bands := ComputeBandsCustom(sig, NUM_BANDS, ROWS_PER_BAND);
    forall f ensures InBucket(buckets, bands, f) <==> f in files && Meet(sig, SigOf(files, f), NUM_BANDS, ROWS_PER_BAND) {
      LookupFindsAll(files, buckets, sig, f);
    }
    if |bands| > 0 {
      var candidates := FindCandidates(files, buckets, bands, self);
      hide InBucket, Meet;
      best := BestMatch(sim, sig, candidates);
    }
  }

  /** The scanned database and the similarity measure, which belongs to the MinHash library. */
  class Database {
    var t: Tables
    const sim: Similarity

    ghost predicate Valid()
      reads this
    {
      Inv(t, sim)
    }

    constructor (sim: Similarity)
      ensures Valid() && t == EMPTY && this.sim == sim
    {
      this.t, this.sim := EMPTY, sim;
    }

    /** `WithTx` around the body of `parseEbook`: an error leaves the tables as they were. */
    method Parse(md: Metadata, path: string) returns (ok: bool)
      requires Valid()
      modifies this
      ensures Valid() && Outcome(old(t), sim, md, path, ok, t)
    {
      hide Inv, Outcome;
      var after;
      ok, after := Transaction(t, sim, md, path);
      OutcomeKeepsInv(t, sim, md, path, ok, if ok then after else t);
      if ok {
        t := after;
      }
    }
  }

  /** The whole transaction; a failure returns no tables to commit. */
  method Transaction(t: Tables, sim: Similarity, md: Metadata, path: string) returns (ok: bool, s: Tables)
    requires Inv(t, sim)
    ensures Outcome(t, sim, md, path, ok, if ok then s else t)
  {
    hide Inv, BookFor, Stored, HashTaken, PathTaken;
    s := t;
    if md.hash == "" {
      return true, s;
    }
    var authors := CreateAuthors(s.authors, md.authors);
    s := s.(authors := authors);
    if HashTaken(t.files, md.hash) {
      s := s.(duplicates := s.duplicates + {(md.hash, path)});
      return true, s;
    }
    if PathTaken(t.files, path) {
      return false, s;
    }
    ok, s := StoreFile(t, authors, sim, md, path);
  }

  /** The file's row and everything that hangs on it; `authors` already holds the new names. */
  method StoreFile(t: Tables, authors: set<string>, sim: Similarity, md: Metadata, path: string)
    returns (ok: bool, s: Tables)
    requires Inv(t, sim) && authors == t.authors + (set a | a in md.authors)
    ensures ok <==> Distinct(md.authors)
    ensures ok ==> exists b :: BookFor(t, sim, md.minhash, b) && s == Stored(t, md, path, b)
  {
    hide Grouped, Indexed, AllPlaced, HashTaken, BookFor, Encoded, BandsOf;
    var f := t.nextFile;
    var blob := EncodeMinHash(md.minhash);
    s := t.(authors := authors, files := t.files[f := FileRow(md.hash, path, blob)], nextFile := f + 1);
    var linked, fileAuthors := LinkFileAuthors(s.fileAuthors, f, md.authors);
    if !linked {
      return false, s;
    }
    s := s.(fileAuthors := fileAuthors);
    var b := FindBook(t, sim, md.minhash);
    if b == 0 {
      b := t.nextBook;
      s := s.(books := s.books + {b}, nextBook := b + 1);
    }
    s := s.(links := s.links + {(b, f)});
    var bookAuthors := LinkBookAuthors(s.bookAuthors, b, md.authors);
    var bands := ComputeBandsCustom(md.minhash, NUM_BANDS, ROWS_PER_BAND);
    var buckets := CreateBuckets(s.buckets, bands, f);
    s := s.(bookAuthors := bookAuthors, buckets := buckets);
    assert s.books == t.books + {b};
    assert bands == BandsOf(md.minhash) by { BandsAre(md.minhash); }
    assert s == Stored(t, md, path, b);
    return true, s;
  }

  lemma BandsAre(sig: seq<Word>)
    ensures BandsOf(sig) == Bands(sig, NUM_BANDS, ROWS_PER_BAND)
  {
  }

  /** The book of the best match, 0 if a new one is needed. */
  method FindBook(t: Tables, sim: Similarity, sig: seq<Word>) returns (b: Id)
    requires Inv(t, sim)
    ensures BookFor(t, sim, sig, if b == 0 then t.nextBook else b)
    ensures b != 0 ==> b in t.books && b != t.nextBook
  {
    hide Alone, Nearest, AllPlaced, Indexed, HashTaken;
    var best := FindMatch(t.files, t.buckets, sim, sig, t.nextFile);
    b := 0;
    if best != 0 {
      assert best in t.files by { NearestIsFile(t.files, sim, sig, t.nextFile, best); }
      NotAlone(t.files, sim, sig, t.nextFile, best);
      b :| (b, best) in t.links;
    }
  }

  lemma NearestIsFile(files: Files, sim: Similarity, sig: seq<Word>, limit: Id, g: Id)
    requires Nearest(files, sim, sig, limit, g)
    ensures g in files
  {
  }

  lemma NotAlone(files: Files, sim: Similarity, sig: seq<Word>, limit: Id, g: Id)
    requires Nearest(files, sim, sig, limit, g)
    ensures !Alone(files, sim, sig, limit)
  {
  }

  // ---- recall ---------------------------------------------------------------------------------------------

  /**
   * In every state a scan reaches: a file whose 128-row signature differs from an earlier file's in at most 24 of the
   * first 125 rows, and is at least 75% similar to it, never founds a book, and its book holds an earlier file that is
   * at least as similar.
   */
  lemma NearDuplicatesAreGrouped(t: Tables, sim: Similarity, g: Id, f: Id, b: Id)
    requires Inv(t, sim) && g in t.files && f in t.files && g < f && (b, f) in t.links
    requires |SigOf(t.files, g)| == |SigOf(t.files, f)| == 128
    requires Differences(SigOf(t.files, f), SigOf(t.files, g), 125) <= 24
    requires sim(SigOf(t.files, f), SigOf(t.files, g)) >= MIN_SIMILARITY
    ensures exists h :: (b, h) in t.links && h < f && h in t.files &&
              sim(SigOf(t.files, f), SigOf(t.files, h)) >= sim(SigOf(t.files, f), SigOf(t.files, g))
  {
    hide Decoded, Meet, Differences, Indexed, Keyed;
    DefaultRecall(SigOf(t.files, f), SigOf(t.files, g));
    assert Placed(t.files, t.links, sim, f, b);
    assert Near(sim, SigOf(t.files, f), SigOf(t.files, g));
    var h :| (b, h) in t.links && Nearest(t.files, sim, SigOf(t.files, f), f, h);
  }
}
