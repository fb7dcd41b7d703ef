/**
 * The file list of a book's report (internal/report/books.go:573-608): its files in the order of their paths, then its
 * exact duplicates, each under the metadata of the file with the same content.
 */
module ReportFiles {
  import opened Lexicographic

  /** A row of `book_files` with what the report shows of it, and a row of `book_file_duplicates`. */
  datatype Row = Row(hash: string, path: string, shown: string)
  datatype Duplicate = Duplicate(hash: string, path: string)

  datatype Entry = Entry(path: string, shown: string)

  /** Rows of one book: neither a hash nor a path twice. */
  ghost predicate Keyed(rows: seq<Row>) {
    forall i, j | 0 <= i < j < |rows| :: rows[i].hash != rows[j].hash && rows[i].path != rows[j].path
  }

  function RowPaths(rows: seq<Row>): set<string> {
    set r | r in rows :: r.path
  }

  /** The paths recorded for the rows' contents. */
  ghost function Recorded(rows: seq<Row>, dups: seq<Duplicate>): set<string> {
    RowPaths(rows) + set d | d in dups && exists r :: r in rows && r.hash == d.hash :: d.path
  }

  predicate DistinctPaths(files: seq<Entry>) {
    forall i, j | 0 <= i < j < |files| :: files[i].path != files[j].path
  }

  /** An entry shows the metadata of a row that has its path, or of the row whose content it duplicates. */
  ghost predicate Justified(e: Entry, rows: seq<Row>, dups: seq<Duplicate>) {
    exists r :: r in rows && e.shown == r.shown && (e.path == r.path || Duplicate(r.hash, e.path) in dups)
  }

  // ---- the order of the paths -----------------------------------------------------------------------------

  predicate Ascending(rows: seq<Row>) {
    forall i, j | 0 <= i < j < |rows| :: Less(rows[i].path, rows[j].path)
  }

  lemma InsertAscending(rows: seq<Row>, k: nat, r: Row)
    requires Ascending(rows) && k <= |rows| && forall i | 0 <= i < |rows| :: rows[i].path != r.path
    requires k > 0 ==> !Less(r.path, rows[k - 1].path)
    requires k < |rows| ==> Less(r.path, rows[k].path)
    ensures Ascending(rows[..k] + [r] + rows[k..])
  {
    forall i | 0 <= i < |rows| ensures if i < k then Less(rows[i].path, r.path) else Less(r.path, rows[i].path) {
      if i < k {
        LessOrGreater(rows[k - 1].path, r.path);
        if i < k - 1 {
          LessTransitive(rows[i].path, rows[k - 1].path, r.path);
        }
      } else if i > k {
        LessTransitive(r.path, rows[k].path, rows[i].path);
      }
    }
    hide Less;
  }

  lemma PathsInRows(sorted: seq<Row>, rows: seq<Row>, i: nat)
    requires Keyed(rows) && i < |rows| && multiset(sorted) == multiset(rows[..i])
    ensures forall k | 0 <= k < |sorted| :: sorted[k].path != rows[i].path
  {
    forall k | 0 <= k < |sorted| ensures sorted[k].path != rows[i].path {
      assert sorted[k] in multiset(sorted);
      var j :| 0 <= j < i && rows[..i][j] == sorted[k];
      assert rows[j].path != rows[i].path;
    }
  }

  /** Where the next row goes. */
  method PlaceOf(sorted: seq<Row>, r: Row) returns (k: nat)
    ensures k <= |sorted|
    ensures k > 0 ==> !Less(r.path, sorted[k - 1].path)
    ensures k < |sorted| ==> Less(r.path, sorted[k].path)
  {
    k := |sorted|;
    while k > 0 && Less(r.path, sorted[k - 1].path)
      invariant k <= |sorted|
      invariant k < |sorted| ==> Less(r.path, sorted[k].path)
    {
      k := k - 1;
    }
  }

  lemma InsertKeeps(rows: seq<Row>, k: nat, r: Row)
    requires k <= |rows|
    ensures multiset(rows[..k] + [r] + rows[k..]) == multiset(rows + [r])
  {
    assert rows == rows[..k] + rows[k..];
  }

  /** The rows in the order of their paths. */
  method SortByPath(rows: seq<Row>) returns (sorted: seq<Row>)
    requires Keyed(rows)
    ensures Ascending(sorted) && multiset(sorted) == multiset(rows)
  {
    sorted := [];
    for i := 0 to |rows|
      invariant Ascending(sorted) && multiset(sorted) == multiset(rows[..i])
    {
      hide Less, Ascending, Keyed;
      PathsInRows(sorted, rows, i);
      assert rows[..i + 1] == rows[..i] + [rows[i]];
      var k := PlaceOf(sorted, rows[i]);
      InsertAscending(sorted, k, rows[i]);
      InsertKeeps(sorted, k, rows[i]);
      sorted := sorted[..k] + [rows[i]] + sorted[k..];
    }
    assert rows[..|rows|] == rows;
  }

  lemma SortedIsKeyed(sorted: seq<Row>, rows: seq<Row>)
    requires Keyed(rows) && Ascending(sorted) && multiset(sorted) == multiset(rows)
    ensures Keyed(sorted) && forall r :: r in sorted <==> r in rows
  {
    assert forall r :: r in sorted <==> r in multiset(sorted);
    assert forall r :: r in rows <==> r in multiset(rows);
    forall i, j | 0 <= i < j < |sorted| ensures sorted[i].hash != sorted[j].hash && sorted[i].path != sorted[j].path {
      LessIsStrict(sorted[i].path, sorted[j].path);
      assert sorted[i] in rows && sorted[j] in rows;
      var a :| 0 <= a < |rows| && rows[a] == sorted[i];
      var b :| 0 <= b < |rows| && rows[b] == sorted[j];
    }
  }

  /** The duplicates as the query lists them. */
  predicate InPathOrder(dups: seq<Duplicate>) {
    forall i, j | 0 <= i < j < |dups| :: !Less(dups[j].path, dups[i].path)
  }

  /** After the first `own` entries, which are in the order of their paths, the others are too. */
  predicate OrderedEntries(files: seq<Entry>, own: nat) {
    && own <= |files|
    && (forall i, j | 0 <= i < j < own :: Less(files[i].path, files[j].path))
    && (forall i, j | own <= i < j < |files| :: Less(files[i].path, files[j].path))
  }

  // ---- the list -------------------------------------------------------------------------------------------

  function OwnEntries(rows: seq<Row>): (r: seq<Entry>)
    ensures |r| == |rows|
  {
    seq(|rows|, i requires 0 <= i < |rows| => Entry(rows[i].path, rows[i].shown))
  }

  function EntryPaths(files: seq<Entry>): set<string> {
    set e | e in files :: e.path
  }

  /** What each content shows. */
  ghost predicate Indexes(byHash: map<string, string>, rows: seq<Row>) {
    && (forall h | h in byHash :: exists r :: r in rows && r.hash == h && r.shown == byHash[h])
    && (forall r | r in rows :: r.hash in byHash)
  }

  /** The book's own files. */
  method OwnFiles(rows: seq<Row>) returns (files: seq<Entry>, byPath: set<string>, byHash: map<string, string>)
    requires Keyed(rows)
    ensures files == OwnEntries(rows) && byPath == RowPaths(rows) && Indexes(byHash, rows)
  {
    files, byPath, byHash := [], {}, map[];
    for i := 0 to |rows|
      invariant files == OwnEntries(rows[..i]) && byPath == RowPaths(rows[..i])
      invariant forall h :: h in byHash <==> exists j :: 0 <= j < i && rows[j].hash == h
      invariant forall j | 0 <= j < i :: byHash[rows[j].hash] == rows[j].shown
    {
      files := files + [Entry(rows[i].path, rows[i].shown)];
      byPath := byPath + {rows[i].path};
      byHash := byHash[rows[i].hash := rows[i].shown];
    }
    assert rows[..|rows|] == rows;
    forall h | h in byHash ensures exists r :: r in rows && r.hash == h && r.shown == byHash[h] {
      var j :| 0 <= j < |rows| && rows[j].hash == h;
      assert rows[j] in rows;
    }
  }

  /** The list so far: the own files first, each path once, everything justified. */
  ghost predicate Listed(files: seq<Entry>, rows: seq<Row>, dups: seq<Duplicate>) {
    OwnEntries(rows) <= files && DistinctPaths(files) && forall e | e in files :: Justified(e, rows, dups)
  }

  lemma OwnListed(rows: seq<Row>, dups: seq<Duplicate>)
    requires Keyed(rows)
    ensures Listed(OwnEntries(rows), rows, dups) && EntryPaths(OwnEntries(rows)) == RowPaths(rows)
  {
    var files := OwnEntries(rows);
    forall e | e in files ensures Justified(e, rows, dups) && e.path in RowPaths(rows) {
      var i :| 0 <= i < |files| && files[i] == e;
      assert rows[i] in rows;
    }
    forall path | path in RowPaths(rows) ensures path in EntryPaths(files) {
      var r :| r in rows && r.path == path;
      var i :| 0 <= i < |rows| && rows[i] == r;
      assert files[i] in files;
    }
  }

  lemma ListOneMore(files: seq<Entry>, rows: seq<Row>, dups: seq<Duplicate>, r: Row, path: string)
    requires Listed(files, rows, dups) && r in rows && Duplicate(r.hash, path) in dups && path !in EntryPaths(files)
    ensures var e := Entry(path, r.shown); Listed(files + [e], rows, dups) && EntryPaths(files + [e]) == EntryPaths(files) + {path}
  {
    assert Justified(Entry(path, r.shown), rows, dups);
    hide Justified;
    assert forall i | 0 <= i < |files| :: files[i].path in EntryPaths(files);
  }

  /** The last listed duplicate comes from an earlier row of the query. */
  ghost predicate LastFrom(files: seq<Entry>, own: nat, dups: seq<Duplicate>, i: nat)
    requires i <= |dups|
  {
    |files| > own ==> exists j :: 0 <= j < i && dups[j].path == files[|files| - 1].path
  }

  lemma OrderedOneMore(files: seq<Entry>, own: nat, dups: seq<Duplicate>, i: nat, e: Entry)
    requires OrderedEntries(files, own) && i < |dups| && InPathOrder(dups) && LastFrom(files, own, dups, i)
    requires e.path == dups[i].path && e.path !in EntryPaths(files)
    ensures OrderedEntries(files + [e], own) && LastFrom(files + [e], own, dups, i + 1)
  {
    var all := files + [e];
    forall k | own <= k < |files| ensures Less(files[k].path, e.path) {
      var last := files[|files| - 1];
      var j :| 0 <= j < i && dups[j].path == last.path;
      assert last in files;
      LessOrGreater(last.path, e.path);
      if k < |files| - 1 {
        LessTransitive(files[k].path, last.path, e.path);
      }
    }
    hide Less;
    assert all[|files|] == e;
  }

  lemma OwnOrdered(rows: seq<Row>)
    requires Ascending(rows)
    ensures OrderedEntries(OwnEntries(rows), |rows|)
  {
    hide Less;
  }

  /**
   * Every recorded path of the book is listed once, and nothing else: the book's own files in the order of their paths,
   * then the duplicates in theirs.
   */
  method BuildFiles(rows: seq<Row>, dups: seq<Duplicate>) returns (files: seq<Entry>)
    requires Keyed(rows) && InPathOrder(dups)
    ensures |rows| <= |files| && OrderedEntries(files, |rows|) && DistinctPaths(files)
    ensures forall e :: e in files[..|rows|] <==> e in OwnEntries(rows)
    ensures EntryPaths(files) == Recorded(rows, dups)
    ensures forall e | e in files :: Justified(e, rows, dups)
  {
    var sorted := SortByPath(rows);
    SortedIsKeyed(sorted, rows);
    SameLength(sorted, rows);
    SameEntries(sorted, rows);
    SameEntries(rows, sorted);
    SameRecorded(sorted, rows, dups);
    OwnOrdered(sorted);
    files := AttachDuplicates(sorted, dups);
    assert files[..|rows|] == OwnEntries(sorted);
  }

  lemma SameLength(a: seq<Row>, b: seq<Row>)
    requires multiset(a) == multiset(b)
    ensures |a| == |b|
  {
    assert |a| == |multiset(a)| == |multiset(b)| == |b|;
  }

  lemma SameRecorded(a: seq<Row>, b: seq<Row>, dups: seq<Duplicate>)
    requires forall r :: r in a <==> r in b
    ensures Recorded(a, dups) == Recorded(b, dups)
    ensures forall e :: Justified(e, a, dups) <==> Justified(e, b, dups)
  {
  }

  lemma SameEntries(a: seq<Row>, b: seq<Row>)
    requires forall r :: r in a <==> r in b
    ensures forall e :: e in OwnEntries(a) ==> e in OwnEntries(b)
  {
    forall e | e in OwnEntries(a) ensures e in OwnEntries(b) {
      var i :| 0 <= i < |a| && OwnEntries(a)[i] == e;
      assert a[i] in b;
      var j :| 0 <= j < |b| && b[j] == a[i];
      assert OwnEntries(b)[j] == e;
    }
  }

  /** `rows` are in the order of their paths. */
  method AttachDuplicates(rows: seq<Row>, dups: seq<Duplicate>) returns (files: seq<Entry>)
    requires Keyed(rows) && InPathOrder(dups) && OrderedEntries(OwnEntries(rows), |rows|)
    ensures OwnEntries(rows) <= files && OrderedEntries(files, |rows|) && DistinctPaths(files)
    ensures EntryPaths(files) == Recorded(rows, dups)
    ensures forall e | e in files :: Justified(e, rows, dups)
  {
    var byPath, byHash;
    files, byPath, byHash := OwnFiles(rows);
    NothingAttached(rows, dups);
    hide OwnEntries, EntryPaths, Recorded, RowPaths, Keyed, OrderedEntries, LastFrom, InPathOrder, Justified, DistinctPaths;
    for i := 0 to |dups|
      invariant Listed(files, rows, dups) && byPath == EntryPaths(files) == Recorded(rows, dups[..i])
      invariant OrderedEntries(files, |rows|) && LastFrom(files, |rows|, dups, i)
    {
      RecordedStep(rows, dups, i);
      LastStays(files, |rows|, dups, i);
      hide Listed;
      var d := dups[i];
      if d.path in byPath {
        continue;
      }
      if d.hash !in byHash {
        continue;
      }
      ghost var r :| r in rows && r.hash == d.hash && r.shown == byHash[d.hash];
      assert Duplicate(r.hash, d.path) == d;
      ListOneMore(files, rows, dups, r, d.path);
      OrderedOneMore(files, |rows|, dups, i, Entry(d.path, r.shown));
      files := files + [Entry(d.path, byHash[d.hash])];
      byPath := byPath + {d.path};
    }
    assert dups[..|dups|] == dups;
  }

  lemma NothingAttached(rows: seq<Row>, dups: seq<Duplicate>)
    requires Keyed(rows)
    ensures Listed(OwnEntries(rows), rows, dups)
    ensures EntryPaths(OwnEntries(rows)) == RowPaths(rows) == Recorded(rows, dups[..0])
    ensures LastFrom(OwnEntries(rows), |rows|, dups, 0)
  {
    hide Keyed, Listed;
    OwnListed(rows, dups);
  }

  lemma LastStays(files: seq<Entry>, own: nat, dups: seq<Duplicate>, i: nat)
    requires i < |dups| && LastFrom(files, own, dups, i)
    ensures LastFrom(files, own, dups, i + 1)
  {
  }

  lemma RecordedStep(rows: seq<Row>, dups: seq<Duplicate>, i: nat)
    requires i < |dups|
    ensures Recorded(rows, dups[..i + 1])
         == Recorded(rows, dups[..i]) + if exists r :: r in rows && r.hash == dups[i].hash then {dups[i].path} else {}
  {
    assert dups[..i + 1] == dups[..i] + [dups[i]];
  }
}
