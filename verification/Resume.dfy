/** What canonicalization does to the recorded paths, and what scanning, consolidating and resuming in turn keep. */
module Resume {
  import opened Lexicographic
  import opened Canonical

  // ---- the result of the pass -----------------------------------------------------------------------------

  lemma InDuplicates(t: Records, hash: string, path: string)
    ensures path in DuplicatePaths(t, hash) <==> (hash, path) in t.duplicates
  {
    if (hash, path) in t.duplicates {
      var d := (hash, path);
      assert d.0 == hash && d.1 == path;
    }
  }

  /** Each hash keeps its paths, and its canonical path is the smallest of them. */
  lemma CanonicalizedPaths(t: Records, hash: string)
    requires hash in t.canonical
    ensures var s := Canonicalized(t);
      && s.canonical.Keys == t.canonical.Keys
      && Paths(s, hash) == Paths(t, hash)
      && s.canonical[hash] == Smallest(Paths(t, hash))
  {
    var s := Canonicalized(t);
    NewPathIsSmallest(t, hash);
    forall path ensures path in Paths(s, hash) <==> path in Paths(t, hash) {
      InDuplicates(t, hash, path);
      InDuplicates(s, hash, path);
      InDuplicates(t, hash, NewPath(t, hash));
      hide DuplicatePaths;
    }
  }

  /** No recorded path of the content is a proper prefix of its canonical path, or smaller where they first differ. */
  lemma CanonicalComesFirst(t: Records, hash: string, path: string)
    requires hash in t.canonical && path in Paths(t, hash)
    ensures var c := Canonicalized(t).canonical;
      && hash in c && c[hash] in Paths(t, hash)
      && !(path != c[hash] && path <= c[hash])
      && !exists i: nat :: SmallerAt(path, c[hash], i)
  {
    var c := Canonicalized(t).canonical[hash];
    CanonicalizedPaths(t, hash);
    LessMeans(path, c);
    if Less(path, c) {
      LessIsStrict(path, c);
    }
    hide Canonicalized, Paths, Less;
  }

  /** A second pass finds nothing to do. */
  lemma CanonicalizedIsDone(t: Records, hash: string)
    ensures !Needs(Canonicalized(t), hash)
  {
    var s := Canonicalized(t);
    if Needs(s, hash) {
      CanonicalizedPaths(t, hash);
      var d := Smallest(DuplicatePaths(s, hash));
      assert d in Paths(s, hash);
      LessIsStrict(d, s.canonical[hash]);
      assert false;
    }
  }

  lemma CanonicalizeTwice(t: Records)
    ensures Canonicalized(Canonicalized(t)) == Canonicalized(t)
  {
    var s := Canonicalized(t);
    forall hash ensures !Needs(s, hash) {
      CanonicalizedIsDone(t, hash);
    }
    assert (set hash | hash in s.canonical && Needs(s, hash)) == {};
  }

  /** With no path under two hashes the pass succeeds in every order of its rows. */
  lemma OneHashNeverClashes(t: Records, rows: seq<Row>)
    requires OneHashPerPath(t) && IsListing(t, rows)
    ensures ClashFree(t, rows)
  {
    hide Hashes;
    forall i, hash | 0 <= i < |rows| && hash in t.canonical && hash != rows[i].hash
      ensures rows[i].smallest != NewPath(t, hash) && rows[i].smallest != t.canonical[hash]
    {
      NewPathIsSmallest(t, hash);
      NewPathIsSmallest(t, rows[i].hash);
      assert Paths(t, rows[i].hash) !! Paths(t, hash);
      hide NewPath;
    }
  }

  lemma TablesFail(rows: seq<Row>)
    requires IsListing(Records(map["h" := "b", "g" := "a"], {("h", "a")}), rows)
    ensures !ClashFree(Records(map["h" := "b", "g" := "a"], {("h", "a")}), rows)
  {
    var t := Records(map["h" := "b", "g" := "a"], {("h", "a")});
    assert ("h", "a") in t.duplicates;
    InDuplicates(t, "h", "a");
    InDuplicates(t, "h", Smallest(DuplicatePaths(t, "h")));
    assert Needs(t, "h");
    assert forall path :: path !in DuplicatePaths(t, "g");
    assert !Needs(t, "g");
    var i :| 0 <= i < |rows| && rows[i].hash == "h";
    assert rows[i].smallest == "a";
    assert "g" !in Hashes(rows[..i]);
    assert !TurnFree(t, rows, i);
  }

  lemma SharedPathTables()
    ensures Scanned([("b", "h"), ("a", "g"), ("a", "h")]) == Records(map["h" := "b", "g" := "a"], {("h", "a")})
  {
    hide Scanned;
    ScannedThree(("b", "h"), ("a", "g"), ("a", "h"));
    var first := Record(EMPTY, "b", "h");
    assert first == Records(map["h" := "b"], {});
    var second := Record(first, "a", "g");
    assert "b" != "a" && first.canonical.Values == {"b"};
    assert second == Records(map["h" := "b", "g" := "a"], {});
    assert Record(second, "a", "h") == Records(map["h" := "b", "g" := "a"], {("h", "a")});
  }

  /**
   * A path recorded under two hashes can make it fail, here in every order: a scan that meets content h at b, content g
   * at a and then content h at a too, as under two equal member names, leaves tables that cannot be consolidated.
   */
  lemma SharedPathFails(rows: seq<Row>)
    requires IsListing(Scanned([("b", "h"), ("a", "g"), ("a", "h")]), rows)
    ensures Scanned([("b", "h"), ("a", "g"), ("a", "h")]) == Records(map["h" := "b", "g" := "a"], {("h", "a")})
    ensures !ClashFree(Scanned([("b", "h"), ("a", "g"), ("a", "h")]), rows)
  {
    hide IsListing, ClashFree, Scanned;
    SharedPathTables();
    TablesFail(rows);
  }

  // ---- scanning -------------------------------------------------------------------------------------------

  /** A parsed file's row: a duplicate of recorded content, a conflict with a recorded path, or a new file. */
  function Record(t: Records, path: string, hash: string): Records {
    if hash in t.canonical then t.(duplicates := t.duplicates + {(hash, path)})
    else if path in t.canonical.Values then t
    else t.(canonical := t.canonical[hash := path])
  }

  /** Files scanned in this order, each given as path and hash. */
  function Scanned(files: seq<(string, string)>): Records {
    if files == [] then EMPTY
    else
      var last := files[|files| - 1];
      Record(Scanned(files[..|files| - 1]), last.0, last.1)
  }

  predicate EachOnce(files: seq<(string, string)>) {
    forall i, j | 0 <= i < j < |files| :: files[i].0 != files[j].0
  }

  function ToSet(files: seq<(string, string)>): set<(string, string)> {
    set f | f in files
  }

  /** No path with two contents. */
  predicate OneHash(files: seq<(string, string)>) {
    forall f, g | f in files && g in files && f.0 == g.0 :: f.1 == g.1
  }

  /** Where a content comes first, or the number of files if it never comes. */
  function FirstOf(files: seq<(string, string)>, hash: string): (i: nat)
    ensures i <= |files| && (i < |files| ==> files[i].1 == hash)
    ensures forall j | 0 <= j < i :: files[j].1 != hash
  {
    if files == [] then 0
    else
      var n := |files| - 1;
      var i := FirstOf(files[..n], hash);
      assert forall j | 0 <= j < n :: files[..n][j] == files[j];
      if i < n || files[n].1 == hash then i else |files|
  }

  /** After the first file of its content, this one comes too. */
  ghost predicate Again(files: seq<(string, string)>, path: string, hash: string) {
    exists j :: FirstOf(files, hash) < j < |files| && files[j] == (path, hash)
  }

  /** What a scan leaves: a content's first path is its canonical path, all later ones are duplicates. */
  ghost predicate Tells(t: Records, files: seq<(string, string)>) {
    && (forall hash :: hash in t.canonical <==> FirstOf(files, hash) < |files|)
    && (forall hash | hash in t.canonical :: t.canonical[hash] == files[FirstOf(files, hash)].0)
    && (forall hash, path :: (hash, path) in t.duplicates <==> Again(files, path, hash))
  }

  lemma ScannedAppend(files: seq<(string, string)>, path: string, hash: string)
    ensures Scanned(files + [(path, hash)]) == Record(Scanned(files), path, hash)
  {
    assert (files + [(path, hash)])[..|files|] == files;
  }

  lemma ScannedThree(a: (string, string), b: (string, string), c: (string, string))
    ensures Scanned([a, b, c]) == Record(Record(Record(EMPTY, a.0, a.1), b.0, b.1), c.0, c.1)
  {
    assert Scanned([]) == EMPTY;
    hide Scanned, Record, EMPTY;
    ScannedAppend([], a.0, a.1);
    ScannedAppend([a], b.0, b.1);
    ScannedAppend([a, b], c.0, c.1);
    assert [] + [a] == [a] && [a] + [b] == [a, b] && [a, b] + [c] == [a, b, c];
  }

  lemma FirstOfMore(files: seq<(string, string)>, f: (string, string), hash: string)
    ensures var i := FirstOf(files, hash);
      FirstOf(files + [f], hash) == if i < |files| || f.1 == hash then i else i + 1
  {
    assert (files + [f])[..|files|] == files;
  }

  lemma AgainMore(files: seq<(string, string)>, f: (string, string), path: string, hash: string)
    ensures Again(files + [f], path, hash)
        <==> Again(files, path, hash) || (f == (path, hash) && FirstOf(files, hash) < |files|)
  {
    FirstOfMore(files, f, hash);
    var all, i := files + [f], FirstOf(files, hash);
    if j :| FirstOf(all, hash) < j < |all| && all[j] == (path, hash) {
      assert j < |files| ==> files[j] == (path, hash);
    }
    if Again(files, path, hash) {
      var j :| i < j < |files| && files[j] == (path, hash);
      assert all[j] == (path, hash);
    }
    if f == (path, hash) && i < |files| {
      assert all[|files|] == (path, hash);
    }
  }

  /** The path of a new content is not taken. */
  lemma NewIsFree(t: Records, files: seq<(string, string)>, path: string, hash: string)
    requires Tells(t, files) && OneHash(files + [(path, hash)]) && hash !in t.canonical
    ensures path !in t.canonical.Values
  {
    var all := files + [(path, hash)];
    forall h | h in t.canonical ensures t.canonical[h] != path {
      assert files[FirstOf(files, h)] in all && all[|files|] in all;
    }
  }

  lemma CanonicalAfter(t: Records, files: seq<(string, string)>, path: string, hash: string, h: string)
    requires Tells(t, files) && OneHash(files + [(path, hash)])
    ensures var s, all := Record(t, path, hash), files + [(path, hash)];
      && (h in s.canonical <==> FirstOf(all, h) < |all|)
      && (h in s.canonical ==> s.canonical[h] == all[FirstOf(all, h)].0)
  {
    FirstOfMore(files, (path, hash), h);
    if hash !in t.canonical {
      NewIsFree(t, files, path, hash);
    }
    hide FirstOf, Again, OneHash;
  }

  lemma DuplicateAfter(t: Records, files: seq<(string, string)>, path: string, hash: string, h: string, p: string)
    requires Tells(t, files) && OneHash(files + [(path, hash)])
    ensures (h, p) in Record(t, path, hash).duplicates <==> Again(files + [(path, hash)], p, h)
  {
    AgainMore(files, (path, hash), p, h);
    hide FirstOf, Again, OneHash;
  }

  lemma RecordTells(t: Records, files: seq<(string, string)>, path: string, hash: string)
    requires Tells(t, files) && OneHash(files + [(path, hash)])
    ensures Tells(Record(t, path, hash), files + [(path, hash)])
  {
    var s, all := Record(t, path, hash), files + [(path, hash)];
    forall h ensures (h in s.canonical <==> FirstOf(all, h) < |all|)
      ensures h in s.canonical ==> s.canonical[h] == all[FirstOf(all, h)].0
    {
      CanonicalAfter(t, files, path, hash, h);
    }
    forall h, p ensures (h, p) in s.duplicates <==> Again(all, p, h) {
      DuplicateAfter(t, files, path, hash, h, p);
    }
    hide Record, FirstOf, Again, OneHash;
  }

  lemma {:induction false} ScannedTells(files: seq<(string, string)>)
    requires OneHash(files)
    ensures Tells(Scanned(files), files)
  {
    if files != [] {
      var n := |files| - 1;
      var init, last := files[..n], files[n];
      assert files == init + [(last.0, last.1)];
      ScannedTells(init);
      RecordTells(Scanned(init), init, last.0, last.1);
    }
  }

  function PathsOf(files: set<(string, string)>, hash: string): set<string> {
    set f | f in files && f.1 == hash :: f.0
  }

  lemma InPathsOf(files: set<(string, string)>, hash: string, path: string)
    ensures path in PathsOf(files, hash) <==> (path, hash) in files
  {
    if (path, hash) in files {
      var f := (path, hash);
      assert f in files && f.1 == hash;
    }
  }

  /** The first file of the content is at the smallest of its paths and is met there again. */
  ghost predicate MetAgain(files: seq<(string, string)>, hash: string) {
    var i := FirstOf(files, hash);
    i < |files| && IsSmallest(PathsOf(ToSet(files), hash), files[i].0) && Again(files, files[i].0, hash)
  }

  /** A content's first file or a later one: no file is lost. */
  lemma FirstOrAgain(files: seq<(string, string)>, path: string, hash: string)
    ensures (path, hash) in ToSet(files)
        <==> FirstOf(files, hash) < |files| && (files[FirstOf(files, hash)].0 == path || Again(files, path, hash))
  {
    var i := FirstOf(files, hash);
    if (path, hash) in files {
      var j :| 0 <= j < |files| && files[j] == (path, hash);
      assert j == i || i < j;
    }
    if i < |files| {
      assert files[i] == (files[i].0, hash);
    }
  }

  lemma PathsTold(t: Records, files: seq<(string, string)>, hash: string)
    requires Tells(t, files) && hash in t.canonical
    ensures Paths(t, hash) == PathsOf(ToSet(files), hash)
  {
    forall path ensures path in Paths(t, hash) <==> path in PathsOf(ToSet(files), hash) {
      InDuplicates(t, hash, path);
      InPathsOf(ToSet(files), hash, path);
      FirstOrAgain(files, path, hash);
      hide DuplicatePaths, PathsOf, ToSet, Again, FirstOf;
    }
  }

  lemma CanonicalTold(t: Records, files: seq<(string, string)>, hash: string)
    requires Tells(t, files)
    ensures hash in Canonicalized(t).canonical <==> PathsOf(ToSet(files), hash) != {}
    ensures hash in Canonicalized(t).canonical ==> IsSmallest(PathsOf(ToSet(files), hash), Canonicalized(t).canonical[hash])
  {
    if hash in t.canonical {
      CanonicalizedPaths(t, hash);
      PathsTold(t, files, hash);
    }
    if path :| path in PathsOf(ToSet(files), hash) {
      FirstOrAgain(files, path, hash);
    }
    hide Paths, PathsOf, FirstOf, Again;
  }

  /** Which duplicates the pass leaves for a content. */
  lemma DuplicateLeft(t: Records, hash: string, path: string)
    ensures var s := Canonicalized(t);
      (hash, path) in s.duplicates
      <==> if Needs(t, hash) then path in Paths(t, hash) && path != s.canonical[hash] else (hash, path) in t.duplicates
  {
    if Needs(t, hash) {
      InDuplicates(t, hash, path);
      InDuplicates(t, hash, NewPath(t, hash));
      LessIsStrict(NewPath(t, hash), t.canonical[hash]);
    }
    hide DuplicatePaths;
  }

  lemma DuplicatesTold(t: Records, files: seq<(string, string)>, hash: string, path: string)
    requires Tells(t, files)
    ensures var s := Canonicalized(t);
      (hash, path) in s.duplicates
      <==> (path, hash) in ToSet(files) && (IsSmallest(PathsOf(ToSet(files), hash), path) ==> MetAgain(files, hash))
  {
    var all, s := PathsOf(ToSet(files), hash), Canonicalized(t);
    DuplicateLeft(t, hash, path);
    FirstOrAgain(files, path, hash);
    CanonicalTold(t, files, hash);
    hide ToSet, Canonicalized, DuplicatePaths, PathsOf, FirstOf, Again, IsSmallest;
    if hash in t.canonical {
      var smallest := s.canonical[hash];
      PathsTold(t, files, hash);
      InPathsOf(ToSet(files), hash, path);
      forall m | IsSmallest(all, m) ensures m == smallest {
        SmallestIsUnique(all, m, smallest);
      }
      NewPathIsSmallest(t, hash);
      CanonicalizedPaths(t, hash);
    }
  }

  /**
   * Two scans of the same files, no path with two contents, are consolidated to the same canonical paths, and to the
   * same tables exactly if the same contents are met again at their smallest path in both.
   */
  lemma ScanOrderDecides(a: seq<(string, string)>, b: seq<(string, string)>)
    requires OneHash(a) && OneHash(b) && ToSet(a) == ToSet(b)
    ensures var s, t := Canonicalized(Scanned(a)), Canonicalized(Scanned(b));
      && s.canonical == t.canonical
      && (s == t <==> forall hash :: MetAgain(a, hash) <==> MetAgain(b, hash))
  {
    ScannedTells(a);
    ScannedTells(b);
    hide *;
    SameCanonicals(Scanned(a), Scanned(b), a, b);
    if forall hash :: MetAgain(a, hash) <==> MetAgain(b, hash) {
      SameDuplicates(Scanned(a), Scanned(b), a, b);
    } else {
      var hash :| MetAgain(a, hash) != MetAgain(b, hash);
      MetAgainShows(a, b, hash);
    }
  }

  lemma SameCanonical(s: Records, t: Records, a: seq<(string, string)>, b: seq<(string, string)>, hash: string)
    requires Tells(s, a) && Tells(t, b) && ToSet(a) == ToSet(b)
    ensures var c, d := Canonicalized(s).canonical, Canonicalized(t).canonical;
      (hash in c <==> hash in d) && (hash in c ==> c[hash] == d[hash])
  {
    hide Tells, Canonicalized, ToSet, PathsOf, IsSmallest;
    CanonicalTold(s, a, hash);
    CanonicalTold(t, b, hash);
    if hash in Canonicalized(s).canonical {
      SmallestIsUnique(PathsOf(ToSet(a), hash), Canonicalized(s).canonical[hash], Canonicalized(t).canonical[hash]);
    }
  }

  lemma SameCanonicals(s: Records, t: Records, a: seq<(string, string)>, b: seq<(string, string)>)
    requires Tells(s, a) && Tells(t, b) && ToSet(a) == ToSet(b)
    ensures Canonicalized(s).canonical == Canonicalized(t).canonical
  {
    hide *;
    var c, d := Canonicalized(s).canonical, Canonicalized(t).canonical;
    forall hash ensures (hash in c <==> hash in d) && (hash in c ==> c[hash] == d[hash]) {
      SameCanonical(s, t, a, b, hash);
    }
  }

  lemma SameDuplicates(s: Records, t: Records, a: seq<(string, string)>, b: seq<(string, string)>)
    requires Tells(s, a) && Tells(t, b) && ToSet(a) == ToSet(b)
    requires forall hash :: MetAgain(a, hash) <==> MetAgain(b, hash)
    ensures Canonicalized(s).duplicates == Canonicalized(t).duplicates
  {
    hide *;
    var c, d := Canonicalized(s).duplicates, Canonicalized(t).duplicates;
    forall hash, path ensures (hash, path) in c <==> (hash, path) in d {
      SameDuplicate(s, t, a, b, hash, path);
    }
    assert forall e :: e in c ==> e == (e.0, e.1);
    assert forall e :: e in d ==> e == (e.0, e.1);
  }

  lemma SameDuplicate(
    s: Records, t: Records, a: seq<(string, string)>, b: seq<(string, string)>, hash: string, path: string)
    requires Tells(s, a) && Tells(t, b) && ToSet(a) == ToSet(b) && (MetAgain(a, hash) <==> MetAgain(b, hash))
    ensures (hash, path) in Canonicalized(s).duplicates <==> (hash, path) in Canonicalized(t).duplicates
  {
    hide *;
    DuplicatesTold(s, a, hash, path);
    DuplicatesTold(t, b, hash, path);
  }

  lemma MetAgainShows(a: seq<(string, string)>, b: seq<(string, string)>, hash: string)
    requires OneHash(a) && OneHash(b) && ToSet(a) == ToSet(b) && MetAgain(a, hash) != MetAgain(b, hash)
    ensures Canonicalized(Scanned(a)).duplicates != Canonicalized(Scanned(b)).duplicates
  {
    ScannedTells(a);
    ScannedTells(b);
    var files := if MetAgain(a, hash) then a else b;
    var path := files[FirstOf(files, hash)].0;
    assert (path, hash) in ToSet(files) by { FirstOrAgain(files, path, hash); }
    hide Scanned, Tells, Canonicalized, ToSet, PathsOf, MetAgain;
    DuplicatesTold(Scanned(a), a, hash, path);
    DuplicatesTold(Scanned(b), b, hash, path);
  }

  /** Such a scan is consolidated whatever the order of the rows. */
  lemma OneHashSucceeds(files: seq<(string, string)>, rows: seq<Row>)
    requires OneHash(files) && IsListing(Scanned(files), rows)
    ensures ClashFree(Scanned(files), rows)
  {
    var t := Scanned(files);
    ScannedTells(files);
    hide Scanned, FirstOf, Again, IsListing, ClashFree;
    assert OneHashPerPath(t) by {
      forall g, h | g in t.canonical && h in t.canonical && g != h ensures Paths(t, g) !! Paths(t, h) {
        PathsTold(t, files, g);
        PathsTold(t, files, h);
        ApartPaths(files, g, h);
      }
    }
    OneHashNeverClashes(t, rows);
  }

  lemma ApartPaths(files: seq<(string, string)>, g: string, h: string)
    requires OneHash(files) && g != h
    ensures PathsOf(ToSet(files), g) !! PathsOf(ToSet(files), h)
  {
    var all := ToSet(files);
    forall path ensures !(path in PathsOf(all, g) && path in PathsOf(all, h)) {
      InPathsOf(all, g, path);
      InPathsOf(all, h, path);
    }
  }

  /** If no path is scanned twice, the consolidated tables are the same for every order. */
  lemma ScanOrderDoesNotMatter(a: seq<(string, string)>, b: seq<(string, string)>)
    requires EachOnce(a) && EachOnce(b) && ToSet(a) == ToSet(b)
    ensures Canonicalized(Scanned(a)) == Canonicalized(Scanned(b))
  {
    EachOnceNeverAgain(a);
    EachOnceNeverAgain(b);
    hide Canonicalized, Scanned, MetAgain, OneHash, EachOnce, ToSet;
    ScanOrderDecides(a, b);
  }

  lemma EachOnceNeverAgain(files: seq<(string, string)>)
    requires EachOnce(files)
    ensures OneHash(files) && forall hash :: !MetAgain(files, hash)
  {
  }

  // ---- when the order matters -----------------------------------------------------------------------------

  /** The content occurs twice at its smallest path, and at another path too. */
  ghost predicate Ambiguous(files: seq<(string, string)>, hash: string) {
    exists path, other :: path != other && multiset(files)[(path, hash)] >= 2 && (other, hash) in files
      && IsSmallest(PathsOf(ToSet(files), hash), path)
  }

  lemma MetTwice(files: seq<(string, string)>, path: string, hash: string)
    requires FirstOf(files, hash) < |files| && files[FirstOf(files, hash)].0 == path
    ensures Again(files, path, hash) <==> multiset(files)[(path, hash)] >= 2
  {
    var i, f := FirstOf(files, hash), (path, hash);
    assert files[i] == f && f !in files[..i];
    CountFrom(files, i, f);
    hide FirstOf;
    if j :| i < j < |files| && files[j] == f {
      assert files[i + 1..][j - i - 1] == f;
    }
    if f in files[i + 1..] {
      var j :| 0 <= j < |files[i + 1..]| && files[i + 1..][j] == f;
      assert files[i + 1 + j] == f;
    }
  }

  lemma CountFrom(files: seq<(string, string)>, i: nat, f: (string, string))
    requires i < |files| && files[i] == f && f !in files[..i]
    ensures multiset(files)[f] >= 2 <==> f in files[i + 1..]
  {
    assert files == files[..i] + [files[i]] + files[i + 1..];
    assert multiset(files)[f] == 1 + multiset(files[i + 1..])[f];
  }

  lemma SameMultiset(a: seq<(string, string)>, b: seq<(string, string)>)
    requires multiset(a) == multiset(b)
    ensures ToSet(a) == ToSet(b) && (OneHash(a) ==> OneHash(b))
    ensures forall hash :: Ambiguous(a, hash) <==> Ambiguous(b, hash)
  {
    assert forall f :: f in a <==> f in multiset(a);
    assert forall f :: f in b <==> f in multiset(b);
    assert ToSet(a) == ToSet(b);
    hide PathsOf, IsSmallest;
  }

  lemma UnambiguousStays(a: seq<(string, string)>, b: seq<(string, string)>, hash: string)
    requires multiset(a) == multiset(b) && !Ambiguous(a, hash) && MetAgain(a, hash)
    ensures MetAgain(b, hash)
  {
    SameMultiset(a, b);
    var i, j := FirstOf(a, hash), FirstOf(b, hash);
    var path := a[i].0;
    assert a[i] == (path, hash);
    FirstOrAgain(b, path, hash);
    MetTwice(a, path, hash);
    var other := b[j].0;
    assert b[j] == (other, hash);
    hide IsSmallest, PathsOf, FirstOf, Again;
    assert other == path by {
      assert b[j] in ToSet(b);
      assert (other, hash) in a;
    }
    MetTwice(b, path, hash);
  }

  /** `x` first, the others as they were. */
  lemma PutFirst(files: seq<(string, string)>, x: (string, string)) returns (b: seq<(string, string)>)
    requires x in files
    ensures multiset(b) == multiset(files) && FirstOf(b, x.1) == 0 && |b| == |files| && b[0] == x
  {
    var k :| 0 <= k < |files| && files[k] == x;
    b := [x] + (files[..k] + files[k + 1..]);
    assert files == files[..k] + [x] + files[k + 1..];
    assert b[0].1 == x.1;
  }

  /** Two orders that differ. */
  lemma AmbiguousDiffers(files: seq<(string, string)>, hash: string)
    returns (a: seq<(string, string)>, b: seq<(string, string)>)
    requires OneHash(files) && Ambiguous(files, hash)
    ensures multiset(a) == multiset(b) == multiset(files)
    ensures Canonicalized(Scanned(a)) != Canonicalized(Scanned(b))
  {
    var path, other :| path != other && multiset(files)[(path, hash)] >= 2 && (other, hash) in files
      && IsSmallest(PathsOf(ToSet(files), hash), path);
    assert (path, hash) in multiset(files);
    a := PutFirst(files, (path, hash));
    b := PutFirst(files, (other, hash));
    SameMultiset(files, a);
    SameMultiset(files, b);
    MetTwice(a, path, hash);
    hide Canonicalized, Scanned, OneHash, ToSet, PathsOf, FirstOf, Again;
    assert MetAgain(a, hash);
    if MetAgain(b, hash) {
      SmallestIsUnique(PathsOf(ToSet(files), hash), path, other);
    }
    ScanOrderDecides(a, b);
  }

  /**
   * The order of the scan does not matter exactly if no content that occurs at several paths occurs at the smallest of
   * them twice.
   */
  lemma OrderMattersExactly(files: seq<(string, string)>)
    requires OneHash(files)
    ensures (forall a, b | multiset(a) == multiset(b) == multiset(files) ::
               Canonicalized(Scanned(a)) == Canonicalized(Scanned(b)))
       <==> forall hash :: !Ambiguous(files, hash)
  {
    hide Canonicalized, Scanned, OneHash, Ambiguous, ToSet, MetAgain;
    if forall hash :: !Ambiguous(files, hash) {
      forall a, b | multiset(a) == multiset(b) == multiset(files)
        ensures Canonicalized(Scanned(a)) == Canonicalized(Scanned(b))
      {
        SameMultiset(files, a);
        SameMultiset(files, b);
        forall hash ensures MetAgain(a, hash) <==> MetAgain(b, hash) {
          if MetAgain(a, hash) { UnambiguousStays(a, b, hash); }
          if MetAgain(b, hash) { UnambiguousStays(b, a, hash); }
        }
        ScanOrderDecides(a, b);
      }
    } else {
      var hash :| Ambiguous(files, hash);
      var a, b := AmbiguousDiffers(files, hash);
    }
  }

  /**
   * Content h scanned twice at a, as when `a` lies next to `a.gz`, and once at b: a remains a duplicate of itself only
   * if it comes first.
   */
  lemma RescannedPathDiffers()
    ensures var a, b := [("a", "h"), ("a", "h"), ("b", "h")], [("b", "h"), ("a", "h"), ("a", "h")];
      && multiset(a) == multiset(b) && OneHashPerPath(Scanned(a)) && OneHashPerPath(Scanned(b))
      && Canonicalized(Scanned(a)) == Records(map["h" := "a"], {("h", "a"), ("h", "b")})
      && Canonicalized(Scanned(b)) == Records(map["h" := "a"], {("h", "b")})
  {
    ScannedThree(("a", "h"), ("a", "h"), ("b", "h"));
    ScannedThree(("b", "h"), ("a", "h"), ("a", "h"));
    var s, t := Records(map["h" := "a"], {("h", "a"), ("h", "b")}), Records(map["h" := "b"], {("h", "a")});
    assert Record(Record(Record(EMPTY, "a", "h"), "a", "h"), "b", "h") == s;
    assert Record(Record(Record(EMPTY, "b", "h"), "a", "h"), "a", "h") == t;
    hide Scanned;
    SmallTables(s, t);
  }

  lemma SmallTables(s: Records, t: Records)
    requires s == Records(map["h" := "a"], {("h", "a"), ("h", "b")}) && t == Records(map["h" := "b"], {("h", "a")})
    ensures Canonicalized(s) == s && Canonicalized(t) == Records(map["h" := "a"], {("h", "b")})
  {
    assert Less("a", "b");
    InDuplicates(s, "h", "a");
    InDuplicates(s, "h", "b");
    InDuplicates(t, "h", "a");
    assert DuplicatePaths(s, "h") == {"a", "b"} && DuplicatePaths(t, "h") == {"a"};
    assert IsSmallest({"a", "b"}, "a") && IsSmallest({"a"}, "a");
    SmallestIsUnique({"a", "b"}, "a", Smallest({"a", "b"}));
    SmallestIsUnique({"a"}, "a", Smallest({"a"}));
    LessIsStrict("a", "b");
    hide DuplicatePaths, Smallest;
    assert !Less("a", "a");
    assert !Needs(s, "h") && Needs(t, "h");
    assert (set hash | hash in s.canonical && Needs(s, hash)) == {};
    assert (set hash | hash in t.canonical && Needs(t, hash)) == {"h"};
  }

  // ---- resumed runs ---------------------------------------------------------------------------------------

  datatype Op = Visit(path: string, hash: string) | Consolidate(rows: seq<Row>)

  /** A resumed run skips recorded paths; a failing consolidation is rolled back. */
  ghost function Apply(t: Records, op: Op): Records {
    match op
    case Visit(path, hash) => if Recorded(t, path) then t else Record(t, path, hash)
    case Consolidate(rows) => if IsListing(t, rows) && ClashFree(t, rows) then Canonicalized(t) else t
  }

  ghost function ApplyAll(t: Records, ops: seq<Op>): Records
    decreases |ops|
  {
    if ops == [] then t else ApplyAll(Apply(t, ops[0]), ops[1..])
  }

  lemma RecordedIff(t: Records, path: string)
    requires WellFormed(t)
    ensures Recorded(t, path) <==> exists hash :: hash in t.canonical && path in Paths(t, hash)
  {
    if d :| d in t.duplicates && d.1 == path {
      InDuplicates(t, d.0, path);
      assert d.0 in t.canonical && path in Paths(t, d.0);
    }
    if hash :| hash in t.canonical && t.canonical[hash] == path {
      assert path in Paths(t, hash);
    }
    if hash :| hash in t.canonical && path in Paths(t, hash) {
      InDuplicates(t, hash, path);
    }
  }

  lemma RecordPaths(t: Records, path: string, hash: string, h: string)
    requires WellFormed(t) && !Recorded(t, path) && h in Record(t, path, hash).canonical
    ensures Paths(Record(t, path, hash), h)
         == (if h == hash then {path} else {}) + (if h in t.canonical then Paths(t, h) else {})
  {
    var s := Record(t, path, hash);
    forall p ensures p in DuplicatePaths(s, h) <==> p in DuplicatePaths(t, h) || (h == hash && hash in t.canonical && p == path)
    {
      InDuplicates(t, h, p);
      InDuplicates(s, h, p);
    }
    assert h !in t.canonical ==> DuplicatePaths(t, h) == {};
    hide DuplicatePaths;
  }

  lemma RecordWellFormed(t: Records, path: string, hash: string)
    requires WellFormed(t) && !Recorded(t, path)
    ensures var s := Record(t, path, hash); WellFormed(s) && s.canonical.Keys == t.canonical.Keys + {hash}
  {
  }

  /** A new path under one hash leaves the hashes' paths apart. */
  lemma StillApart(t: Records, s: Records, path: string, hash: string)
    requires OneHashPerPath(t) && s.canonical.Keys == t.canonical.Keys + {hash}
    requires forall h | h in s.canonical ::
               Paths(s, h) == (if h == hash then {path} else {}) + (if h in t.canonical then Paths(t, h) else {})
    requires forall h | h in t.canonical :: path !in Paths(t, h)
    ensures OneHashPerPath(s)
  {
    hide Paths;
  }

  lemma RecordKeeps(t: Records, path: string, hash: string)
    requires WellFormed(t) && !Recorded(t, path)
    ensures var s := Record(t, path, hash);
      && WellFormed(s) && (OneHashPerPath(t) ==> OneHashPerPath(s))
      && s.canonical.Keys == t.canonical.Keys + {hash} && path in Paths(s, hash)
      && forall h | h in t.canonical :: Paths(t, h) <= Paths(s, h)
  {
    hide Paths, Record, WellFormed, Recorded, OneHashPerPath;
    var s := Record(t, path, hash);
    RecordWellFormed(t, path, hash);
    RecordedIff(t, path);
    forall h | h in s.canonical
      ensures Paths(s, h) == (if h == hash then {path} else {}) + (if h in t.canonical then Paths(t, h) else {})
    {
      RecordPaths(t, path, hash, h);
    }
    if OneHashPerPath(t) {
      StillApart(t, s, path, hash);
    }
  }

  lemma CanonicalizedKeeps(t: Records)
    requires WellFormed(t) && SmallestDiffer(t)
    ensures var s := Canonicalized(t);
      && WellFormed(s) && (OneHashPerPath(t) ==> OneHashPerPath(s))
      && s.canonical.Keys == t.canonical.Keys
      && forall h | h in t.canonical :: Paths(s, h) == Paths(t, h)
  {
    var s := Canonicalized(t);
    assert forall d | d in s.duplicates :: d.0 in t.canonical;
    forall h | h in t.canonical ensures Paths(s, h) == Paths(t, h) && s.canonical[h] == NewPath(t, h) {
      CanonicalizedPaths(t, h);
      NewPathIsSmallest(t, h);
    }
    hide Canonicalized, Paths, NewPath;
  }

  /** One step of a resumed run keeps the tables in order and every recorded path recorded, each under one hash if it was. */
  lemma StepKeeps(t: Records, op: Op)
    requires WellFormed(t)
    ensures WellFormed(Apply(t, op)) && (OneHashPerPath(t) ==> OneHashPerPath(Apply(t, op)))
    ensures forall path | Recorded(t, path) :: Recorded(Apply(t, op), path)
    ensures op.Visit? ==> Recorded(Apply(t, op), op.path)
  {
    var s := Apply(t, op);
    if op.Visit? && !Recorded(t, op.path) {
      RecordKeeps(t, op.path, op.hash);
    } else if op.Consolidate? && IsListing(t, op.rows) && ClashFree(t, op.rows) {
      TablesDecide(t, op.rows);
      CanonicalizedKeeps(t);
    }
    hide WellFormed, OneHashPerPath, Record, Canonicalized, IsListing, ClashFree, SmallestDiffer, PromotionsFree;
    forall path | Recorded(t, path) || (op.Visit? && path == op.path) ensures Recorded(s, path) {
      RecordedIff(t, path);
      RecordedIff(s, path);
    }
  }

  /**
   * Over any sequence of resumed scans and consolidations recorded paths stay recorded, so each path is parsed at most
   * once and never again after a restart; and consolidation always succeeds if no path is under two hashes at the start.
   */
  lemma {:induction false} ResumedRuns(t: Records, ops: seq<Op>)
    requires WellFormed(t)
    ensures var s := ApplyAll(t, ops);
      && WellFormed(s)
      && (forall path | Recorded(t, path) :: Recorded(s, path))
      && (forall path, hash | Recorded(t, path) :: Apply(s, Visit(path, hash)) == s)
      && (OneHashPerPath(t) ==> OneHashPerPath(s) && forall rows | IsListing(s, rows) :: ClashFree(s, rows))
    decreases |ops|
  {
    hide WellFormed, OneHashPerPath, IsListing, ClashFree, Recorded;
    if ops != [] {
      StepKeeps(t, ops[0]);
      hide Apply;
      ResumedRuns(Apply(t, ops[0]), ops[1..]);
    } else if OneHashPerPath(t) {
      forall rows | IsListing(t, rows) ensures ClashFree(t, rows) {
        OneHashNeverClashes(t, rows);
      }
    }
  }
}
