/**
 * Near-duplicate grouping: the transaction of `parseEbook` (internal/processor/scan.go:368-506) on the tables it reads
 * and writes. A new file joins the book of the most similar file it shares a bucket with, or founds a book.
 */
module Grouping {
  import opened Base
  import opened Words
  import opened Lsh
  import opened MinHashBlob

  type Id = nat

  const MIN_SIMILARITY := 0.75

  datatype FileRow = FileRow(hash: string, path: string, minhash: seq<byte>)

  type Files = map<Id, FileRow>
  type Links = set<(Id, Id)>

  /** The tables a scan fills. An author is known by the name, which is unique. */
  datatype Tables = Tables(
    files: Files,
    nextFile: Id,
    duplicates: set<(string, string)>,
    buckets: set<(Band, Id)>,
    books: set<Id>,
    nextBook: Id,
    links: Links,
    authors: set<string>,
    fileAuthors: set<(Id, string)>,
    bookAuthors: set<(Id, string)>)

  const EMPTY := Tables(map[], 1, {}, {}, {}, 1, {}, {}, {}, {})

  /** What a parser found in an ebook, as far as grouping needs it. */
  datatype Metadata = Metadata(hash: string, authors: seq<string>, minhash: seq<Word>)

  type Similarity = (seq<Word>, seq<Word>) -> real

  // ---- what the tables say --------------------------------------------------------------------------------

  function SigOf(files: Files, f: Id): seq<Word>
    requires f in files
  {
    Decoded(files[f].minhash)
  }

  function BandsOf(sig: seq<Word>): seq<Band> {
    Bands(sig, NUM_BANDS, ROWS_PER_BAND)
  }

  predicate HashTaken(files: Files, hash: string) {
    exists f | f in files :: files[f].hash == hash
  }

  predicate PathTaken(files: Files, path: string) {
    exists f | f in files :: files[f].path == path
  }

  predicate Distinct(names: seq<string>) {
    forall i, j | 0 <= i < j < |names| :: names[i] != names[j]
  }

  /** Found by comparing with every file: those sharing a band whose similarity reaches the threshold. */
  ghost predicate Near(sim: Similarity, a: seq<Word>, b: seq<Word>) {
    Meet(a, b, NUM_BANDS, ROWS_PER_BAND) && sim(a, b) >= MIN_SIMILARITY
  }

  /** `g` is as similar to `sig` as any of the files below `limit` near it. */
  ghost predicate Nearest(files: Files, sim: Similarity, sig: seq<Word>, limit: Id, g: Id) {
    && g in files && g < limit && Near(sim, sig, SigOf(files, g))
    && forall h | h in files && h < limit && Near(sim, sig, SigOf(files, h)) ::
         sim(sig, SigOf(files, h)) <= sim(sig, SigOf(files, g))
  }

  ghost predicate Alone(files: Files, sim: Similarity, sig: seq<Word>, limit: Id) {
    forall g | g in files && g < limit :: !Near(sim, sig, SigOf(files, g))
  }

  // ---- the invariant --------------------------------------------------------------------------------------

  /** Rows have ids below the next one, and neither a hash nor a path occurs twice. */
  ghost predicate Keyed(files: Files, nextFile: Id, books: set<Id>, nextBook: Id) {
    && nextFile > 0 && nextBook > 0
    && (forall f | f in files :: 0 < f < nextFile)
    && (forall b | b in books :: 0 < b < nextBook)
    && (forall f, g | f in files && g in files && f != g :: files[f].hash != files[g].hash && files[f].path != files[g].path)
  }

  /** The bucket table holds exactly the bands of the stored signatures. */
  ghost predicate Indexed(files: Files, buckets: set<(Band, Id)>) {
    forall band, f :: (band, f) in buckets <==> f in files && band in BandsOf(SigOf(files, f))
  }

  /** Every file is in exactly one book, every book has a file, and nothing else is linked. */
  ghost predicate Grouped(files: Files, books: set<Id>, links: Links) {
    && (forall link | link in links :: link.0 in books && link.1 in files)
    && (forall f | f in files :: exists b :: (b, f) in links)
    && (forall b, c, f | (b, f) in links && (c, f) in links :: b == c)
    && (forall b | b in books :: exists f :: (b, f) in links)
  }

  /** No file of `b` came before `f`. */
  ghost predicate Founds(links: Links, f: Id, b: Id) {
    (b, f) in links && forall g | (b, g) in links :: f <= g
  }

  /** Where `f` is: with a file that was nearest when `f` came, or the first of its book because none was near. */
  ghost predicate Placed(files: Files, links: Links, sim: Similarity, f: Id, b: Id)
    requires f in files
  {
    if Alone(files, sim, SigOf(files, f), f) then Founds(links, f, b)
    else exists g :: (b, g) in links && Nearest(files, sim, SigOf(files, f), f, g)
  }

  ghost predicate AllPlaced(files: Files, links: Links, sim: Similarity) {
    forall b, f | (b, f) in links && f in files :: Placed(files, links, sim, f, b)
  }

  /** A book's authors are those of its files, files and names linked are there. */
  ghost predicate Authored(files: Files, links: Links, authors: set<string>, fileAuthors: set<(Id, string)>,
                           bookAuthors: set<(Id, string)>) {
    && (forall f, a | (f, a) in fileAuthors :: f in files && a in authors)
    && (forall b, a :: (b, a) in bookAuthors <==> exists f :: (b, f) in links && (f, a) in fileAuthors)
  }

  ghost predicate Inv(t: Tables, sim: Similarity) {
    && Keyed(t.files, t.nextFile, t.books, t.nextBook)
    && Indexed(t.files, t.buckets)
    && Grouped(t.files, t.books, t.links)
    && AllPlaced(t.files, t.links, sim)
    && (forall d | d in t.duplicates :: HashTaken(t.files, d.0))
    && Authored(t.files, t.links, t.authors, t.fileAuthors, t.bookAuthors)
  }

  // ---- one transaction ------------------------------------------------------------------------------------

  /** The tables after a new file was stored in book `b`. */
  function Stored(t: Tables, md: Metadata, path: string, b: Id): Tables {
    var f := t.nextFile;
    Tables(
      t.files[f := FileRow(md.hash, path, Encoded(md.minhash))],
      f + 1,
      t.duplicates,
      t.buckets + (set band | band in BandsOf(md.minhash) :: (band, f)),
      t.books + {b},
      if b == t.nextBook then b + 1 else t.nextBook,
      t.links + {(b, f)},
      t.authors + (set a | a in md.authors),
      t.fileAuthors + (set a | a in md.authors :: (f, a)),
      t.bookAuthors + (set a | a in md.authors :: (b, a)))
  }

  /** The book a new file may get: that of a nearest file, or the next new one. */
  ghost predicate BookFor(t: Tables, sim: Similarity, sig: seq<Word>, b: Id) {
    if Alone(t.files, sim, sig, t.nextFile) then b == t.nextBook
    else exists g :: (b, g) in t.links && Nearest(t.files, sim, sig, t.nextFile, g)
  }

  /** How the transaction ends. */
  ghost predicate Outcome(t: Tables, sim: Similarity, md: Metadata, path: string, ok: bool, after: Tables) {
    if md.hash == "" then ok && after == t
    else if HashTaken(t.files, md.hash) then
      ok && after == t.(duplicates := t.duplicates + {(md.hash, path)}, authors := t.authors + (set a | a in md.authors))
    else if PathTaken(t.files, path) || !Distinct(md.authors) then !ok && after == t
    else ok && exists b :: BookFor(t, sim, md.minhash, b) && after == Stored(t, md, path, b)
  }

  // ---- the invariant is kept ------------------------------------------------------------------------------

  lemma StoredKeyed(t: Tables, sim: Similarity, md: Metadata, path: string, b: Id)
    requires Inv(t, sim) && BookFor(t, sim, md.minhash, b)
    requires !HashTaken(t.files, md.hash) && !PathTaken(t.files, path)
    ensures var s := Stored(t, md, path, b); Keyed(s.files, s.nextFile, s.books, s.nextBook)
  {
    hide Alone, Nearest, AllPlaced, Indexed, Encoded, BandsOf;
    assert b == t.nextBook || b in t.books;
  }

  lemma StoredDuplicates(t: Tables, md: Metadata, path: string, b: Id, hash: string)
    requires HashTaken(t.files, hash) && t.nextFile !in t.files
    ensures HashTaken(Stored(t, md, path, b).files, hash)
  {
    var f :| f in t.files && t.files[f].hash == hash;
    assert Stored(t, md, path, b).files[f].hash == hash;
  }

  lemma StoredIndexed(t: Tables, md: Metadata, path: string, b: Id)
    requires t.nextFile !in t.files && Indexed(t.files, t.buckets)
    ensures var s := Stored(t, md, path, b); Indexed(s.files, s.buckets)
  {
    var s, n := Stored(t, md, path, b), t.nextFile;
    DecodeEncode(md.minhash);
    assert SigOf(s.files, n) == md.minhash;
    forall band, f ensures (band, f) in s.buckets <==> f in s.files && band in BandsOf(SigOf(s.files, f)) {
      assert f != n && f in s.files ==> SigOf(s.files, f) == SigOf(t.files, f);
      hide Decoded, Bands;
    }
  }

  lemma StoredGrouped(t: Tables, sim: Similarity, md: Metadata, path: string, b: Id)
    requires t.nextFile !in t.files && Grouped(t.files, t.books, t.links) && BookFor(t, sim, md.minhash, b)
    ensures var s := Stored(t, md, path, b); Grouped(s.files, s.books, s.links)
  {
    hide Nearest, Alone, Encoded, BandsOf;
    var s, n := Stored(t, md, path, b), t.nextFile;
    assert (b, n) in s.links;
    forall f | f in s.files ensures exists c :: (c, f) in s.links {
      if f != n {
        var c :| (c, f) in t.links;
        assert (c, f) in s.links;
      }
    }
    forall c | c in s.books ensures exists f :: (c, f) in s.links {
      if c != b {
        var f :| (c, f) in t.links;
        assert (c, f) in s.links;
      }
    }
  }

  /** Later files do not change what was nearest. */
  lemma LaterFilesDoNotMatter(files: Files, later: Files, sim: Similarity, sig: seq<Word>, limit: Id, g: Id)
    requires forall h | h < limit :: (h in later <==> h in files) && (h in files ==> later[h] == files[h])
    ensures Alone(later, sim, sig, limit) <==> Alone(files, sim, sig, limit)
    ensures Nearest(files, sim, sig, limit, g) ==> Nearest(later, sim, sig, limit, g)
  {
    hide Decoded, Near;
  }

  lemma StoredPlaced(t: Tables, sim: Similarity, md: Metadata, path: string, b: Id, c: Id, f: Id)
    requires Inv(t, sim) && BookFor(t, sim, md.minhash, b)
    requires (c, f) in Stored(t, md, path, b).links && f in Stored(t, md, path, b).files
    ensures var s := Stored(t, md, path, b); Placed(s.files, s.links, sim, f, c)
  {
    var s, n := Stored(t, md, path, b), t.nextFile;
    hide Decoded, Nearest, Alone, Encoded, Indexed;
    DecodeEncode(md.minhash);
    var sig, limit := SigOf(s.files, f), if f == n then n else f;
    LaterFilesDoNotMatter(t.files, s.files, sim, sig, limit, 0);
    if f != n {
      assert Placed(t.files, t.links, sim, f, c);
    }
    if !Alone(t.files, sim, sig, limit) {
      var g :| (c, g) in t.links && Nearest(t.files, sim, sig, limit, g);
      LaterFilesDoNotMatter(t.files, s.files, sim, sig, limit, g);
      assert (c, g) in s.links;
    }
  }

  lemma NextIsNew(t: Tables, sim: Similarity)
    requires Inv(t, sim)
    ensures t.nextFile !in t.files
  {
    hide Indexed, Grouped, AllPlaced, Authored, HashTaken;
  }

  lemma StoredAllPlaced(t: Tables, sim: Similarity, md: Metadata, path: string, b: Id)
    requires Inv(t, sim) && BookFor(t, sim, md.minhash, b)
    ensures var s := Stored(t, md, path, b); AllPlaced(s.files, s.links, sim)
  {
    hide Stored, Placed, Inv, BookFor;
    var s := Stored(t, md, path, b);
    forall c, f | (c, f) in s.links && f in s.files ensures Placed(s.files, s.links, sim, f, c) {
      StoredPlaced(t, sim, md, path, b, c, f);
    }
  }

  lemma StoredKeepsInv(t: Tables, sim: Similarity, md: Metadata, path: string, b: Id)
    requires Inv(t, sim) && BookFor(t, sim, md.minhash, b)
    requires !HashTaken(t.files, md.hash) && !PathTaken(t.files, path)
    ensures Inv(Stored(t, md, path, b), sim)
  {
    hide Stored, HashTaken, PathTaken, Indexed, Grouped, AllPlaced, Keyed, Authored, BookFor;
    NextIsNew(t, sim);
    StoredKeyed(t, sim, md, path, b);
    StoredIndexed(t, md, path, b);
    StoredGrouped(t, sim, md, path, b);
    StoredReferences(t, md, path, b);
    StoredAuthored(t, md, path, b);
    StoredAllPlaced(t, sim, md, path, b);
  }

  lemma DuplicateKeepsInv(t: Tables, sim: Similarity, hash: string, path: string, authors: set<string>)
    requires Inv(t, sim) && HashTaken(t.files, hash) && t.authors <= authors
    ensures Inv(t.(duplicates := t.duplicates + {(hash, path)}, authors := authors), sim)
  {
    hide HashTaken, Indexed, Grouped, AllPlaced, Keyed;
  }

  lemma StoredReferences(t: Tables, md: Metadata, path: string, b: Id)
    requires t.nextFile !in t.files
    requires forall d | d in t.duplicates :: HashTaken(t.files, d.0)
    ensures var s := Stored(t, md, path, b); forall d | d in s.duplicates :: HashTaken(s.files, d.0)
  {
    hide Encoded, BandsOf;
    var s := Stored(t, md, path, b);
    forall d | d in s.duplicates ensures HashTaken(s.files, d.0) {
      StoredDuplicates(t, md, path, b, d.0);
    }
  }

  lemma StoredAuthored(t: Tables, md: Metadata, path: string, b: Id)
    requires t.nextFile !in t.files && Grouped(t.files, t.books, t.links)
    requires Authored(t.files, t.links, t.authors, t.fileAuthors, t.bookAuthors)
    ensures var s := Stored(t, md, path, b); Authored(s.files, s.links, s.authors, s.fileAuthors, s.bookAuthors)
  {
    hide Encoded, BandsOf;
    var s, n := Stored(t, md, path, b), t.nextFile;
    forall c, a ensures (c, a) in s.bookAuthors <==> exists f :: (c, f) in s.links && (f, a) in s.fileAuthors {
      if (c, a) in t.bookAuthors {
        var f :| (c, f) in t.links && (f, a) in t.fileAuthors;
        assert (c, f) in s.links && (f, a) in s.fileAuthors;
      } else if (c, a) in s.bookAuthors {
        assert (b, n) in s.links && (n, a) in s.fileAuthors;
      }
    }
  }

  lemma NewRow(t: Tables, md: Metadata, path: string, b: Id)
    requires t.nextFile !in t.files
    ensures var s, n := Stored(t, md, path, b), t.nextFile;
      && s.files.Keys == t.files.Keys + {n} && (forall f | f in t.files :: s.files[f] == t.files[f])
      && s.files[n].hash == md.hash && s.files[n].path == path && SigOf(s.files, n) == md.minhash
  {
    DecodeEncode(md.minhash);
    hide Decoded, Encoded, BandsOf;
  }

  lemma NewAuthors(t: Tables, md: Metadata, path: string, b: Id)
    requires t.nextFile !in t.files && Authored(t.files, t.links, t.authors, t.fileAuthors, t.bookAuthors)
    ensures var s, n := Stored(t, md, path, b), t.nextFile;
      && (forall a :: (n, a) in s.fileAuthors <==> a in md.authors)
      && (forall f, a | f in t.files :: (f, a) in s.fileAuthors <==> (f, a) in t.fileAuthors)
      && (forall a :: a in s.authors <==> a in t.authors || a in md.authors)
  {
    hide Encoded, BandsOf;
  }

  /**
   * What a new file leaves: its row, with exactly the authors that were parsed, its book, and every other file and its
   * authors as they were.
   */
  lemma NewFile(t: Tables, sim: Similarity, md: Metadata, path: string, after: Tables)
    requires Inv(t, sim) && Outcome(t, sim, md, path, true, after) && md.hash != "" && !HashTaken(t.files, md.hash)
    ensures exists n, b ::
              && n !in t.files && after.files.Keys == t.files.Keys + {n} && (b, n) in after.links
              && after.files[n].hash == md.hash && after.files[n].path == path && SigOf(after.files, n) == md.minhash
              && forall a :: (n, a) in after.fileAuthors <==> a in md.authors
    ensures forall f | f in t.files :: f in after.files && after.files[f] == t.files[f]
    ensures forall f, a | f in t.files :: (f, a) in after.fileAuthors <==> (f, a) in t.fileAuthors
    ensures forall a :: a in after.authors <==> a in t.authors || a in md.authors
    ensures after.duplicates == t.duplicates
  {
    NextIsNew(t, sim);
    hide Alone, Nearest, SigOf, Indexed, Grouped, AllPlaced, Keyed, Authored, Encoded, BandsOf, BookFor, HashTaken;
    var b: Id :| BookFor(t, sim, md.minhash, b) && after == Stored(t, md, path, b);
    NewRow(t, md, path, b);
    NewAuthors(t, md, path, b);
    assert (b, t.nextFile) in after.links && after.duplicates == t.duplicates;
    hide Stored;
  }

  /** A new content is refused, and leaves nothing, exactly if its path is taken or an author is named twice. */
  lemma RefusedFile(t: Tables, sim: Similarity, md: Metadata, path: string, ok: bool, after: Tables)
    requires Outcome(t, sim, md, path, ok, after)
    ensures !ok <==> && md.hash != "" && (forall f | f in t.files :: t.files[f].hash != md.hash)
                     && ((exists f | f in t.files :: t.files[f].path == path)
                         || exists i, j :: 0 <= i < j < |md.authors| && md.authors[i] == md.authors[j])
    ensures !ok || md.hash == "" ==> after == t
  {
    hide BookFor, Stored;
  }

  /** A known content leaves a duplicate and its authors' names, and nothing else. */
  lemma KnownContent(t: Tables, sim: Similarity, md: Metadata, path: string, ok: bool, after: Tables)
    requires Outcome(t, sim, md, path, ok, after) && md.hash != "" && HashTaken(t.files, md.hash)
    ensures ok && (forall d :: d in after.duplicates <==> d in t.duplicates || d == (md.hash, path))
    ensures forall a :: a in after.authors <==> a in t.authors || a in md.authors
    ensures after.(duplicates := t.duplicates, authors := t.authors) == t
  {
  }

  /** Whatever is parsed, in whatever order, the invariant stays. */
  lemma OutcomeKeepsInv(t: Tables, sim: Similarity, md: Metadata, path: string, ok: bool, after: Tables)
    requires Inv(t, sim) && Outcome(t, sim, md, path, ok, after)
    ensures Inv(after, sim)
  {
    hide Inv, Stored, BookFor, HashTaken, PathTaken, Distinct;
    if after != t {
      if HashTaken(t.files, md.hash) {
        DuplicateKeepsInv(t, sim, md.hash, path, after.authors);
      } else {
        var b :| BookFor(t, sim, md.minhash, b) && after == Stored(t, md, path, b);
        StoredKeepsInv(t, sim, md, path, b);
      }
    }
  }
}
