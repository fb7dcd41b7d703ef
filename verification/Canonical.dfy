/**
 * Which paths are recorded for which content: `book_files` and `book_file_duplicates`, the pass that makes the smallest
 * path of each hash the canonical one (internal/report/books.go:116-142), and resumed runs (internal/processor/resume.go).
 */
module Canonical {
  import opened Lexicographic

  /** `canonical` holds the path of each hash's `book_files` row, `duplicates` the rows of `book_file_duplicates`. */
  datatype Records = Records(canonical: map<string, string>, duplicates: set<(string, string)>)

  const EMPTY := Records(map[], {})

  function DuplicatePaths(t: Records, hash: string): set<string> {
    set d | d in t.duplicates && d.0 == hash :: d.1
  }

  /** All paths recorded for a hash. */
  function Paths(t: Records, hash: string): (r: set<string>)
    requires hash in t.canonical
    ensures r != {}
  {
    assert t.canonical[hash] in {t.canonical[hash]} + DuplicatePaths(t, hash);
    {t.canonical[hash]} + DuplicatePaths(t, hash)
  }

  predicate Recorded(t: Records, path: string) {
    path in t.canonical.Values || exists d | d in t.duplicates :: d.1 == path
  }

  /** A duplicate refers to a recorded hash, and no two rows have the same path. */
  ghost predicate WellFormed(t: Records) {
    && (forall d | d in t.duplicates :: d.0 in t.canonical)
    && (forall g, h | g in t.canonical && h in t.canonical && g != h :: t.canonical[g] != t.canonical[h])
  }

  /** No path is recorded under two hashes. */
  ghost predicate OneHashPerPath(t: Records) {
    forall g, h | g in t.canonical && h in t.canonical && g != h :: Paths(t, g) !! Paths(t, h)
  }

  // ---- the canonicalization pass --------------------------------------------------------------------------

  datatype Row = Row(hash: string, canonical: string, smallest: string)

  /** The smallest duplicate is smaller than the canonical path. */
  predicate Needs(t: Records, hash: string) {
    && hash in t.canonical && DuplicatePaths(t, hash) != {}
    && Less(Smallest(DuplicatePaths(t, hash)), t.canonical[hash])
  }

  function NewPath(t: Records, hash: string): string
    requires hash in t.canonical
  {
    if Needs(t, hash) then Smallest(DuplicatePaths(t, hash)) else t.canonical[hash]
  }

  lemma NewPathIsSmallest(t: Records, hash: string)
    requires hash in t.canonical
    ensures NewPath(t, hash) == Smallest(Paths(t, hash))
  {
    var m, c := NewPath(t, hash), t.canonical[hash];
    if DuplicatePaths(t, hash) != {} {
      var d := Smallest(DuplicatePaths(t, hash));
      LessOrGreater(d, c);
      forall x | x in Paths(t, hash) ensures x == m || Less(m, x) {
        if m == c && x != c && x != d {
          assert Less(d, x);
          if c != d {
            LessTransitive(c, d, x);
          }
        }
      }
    }
    assert IsSmallest(Paths(t, hash), m);
    SmallestIsUnique(Paths(t, hash), m, Smallest(Paths(t, hash)));
  }

  function RowOf(t: Records, hash: string): Row
    requires hash in t.canonical
  {
    Row(hash, t.canonical[hash], NewPath(t, hash))
  }

  /** Rows of hashes in need, none twice. */
  ghost predicate ArePart(t: Records, rows: seq<Row>) {
    && (forall i | 0 <= i < |rows| :: Needs(t, rows[i].hash) && rows[i] == RowOf(t, rows[i].hash))
    && (forall i, j | 0 <= i < j < |rows| :: rows[i].hash != rows[j].hash)
  }

  /** The result of `ListBookFileHashesNeedingCanonicalization`: one row per hash in need, in any order. */
  ghost predicate IsListing(t: Records, rows: seq<Row>) {
    ArePart(t, rows) && forall hash | Needs(t, hash) :: exists i :: 0 <= i < |rows| && rows[i].hash == hash
  }

  function Hashes(rows: seq<Row>): set<string> {
    set r | r in rows :: r.hash
  }

  /** The tables once the hashes in `done` are canonical. */
  function After(t: Records, done: set<string>): Records
    requires done <= t.canonical.Keys
  {
    Records(
      map hash | hash in t.canonical :: if hash in done then NewPath(t, hash) else t.canonical[hash],
      (set d | d in t.duplicates && !(d.0 in done && d.1 == NewPath(t, d.0)))
      + (set hash | hash in done :: (hash, t.canonical[hash])))
  }

  /** Every hash's smallest path is its canonical path, the others are its duplicates. */
  function Canonicalized(t: Records): Records {
    After(t, set hash | hash in t.canonical && Needs(t, hash))
  }

  /**
   * Row `i`'s path is free when its turn comes: no other hash has it as its canonical path, an earlier row's hash the
   * path it was just given and any other hash the path it had.
   */
  ghost predicate TurnFree(t: Records, rows: seq<Row>, i: nat)
    requires i < |rows|
  {
    forall hash | hash in t.canonical && hash != rows[i].hash ::
      rows[i].smallest != if hash in Hashes(rows[..i]) then NewPath(t, hash) else t.canonical[hash]
  }

  ghost predicate ClashFree(t: Records, rows: seq<Row>) {
    forall i | 0 <= i < |rows| :: TurnFree(t, rows, i)
  }

  // ---- when it succeeds -----------------------------------------------------------------------------------

  /** No two hashes have the same smallest path. */
  ghost predicate SmallestDiffer(t: Records) {
    forall g, h | g in t.canonical && h in t.canonical && g != h :: NewPath(t, g) != NewPath(t, h)
  }

  /** Nor is a path to be promoted another hash's canonical path. */
  ghost predicate PromotionsFree(t: Records) {
    && SmallestDiffer(t)
    && forall g, h | g in t.canonical && Needs(t, h) && g != h :: NewPath(t, h) != t.canonical[g]
  }

  lemma OneRowMore(t: Records, rows: seq<Row>, hash: string)
    requires ArePart(t, rows) && hash in t.canonical && Needs(t, hash) && hash !in Hashes(rows)
    ensures ArePart(t, rows + [RowOf(t, hash)]) && Hashes(rows + [RowOf(t, hash)]) == Hashes(rows) + {hash}
  {
    hide Needs, NewPath;
    assert forall i | 0 <= i < |rows| :: rows[i] in rows;
  }

  lemma AllRowsListed(t: Records, rows: seq<Row>)
    requires ArePart(t, rows) && forall hash | hash in t.canonical && Needs(t, hash) :: hash in Hashes(rows)
    ensures IsListing(t, rows)
  {
    hide NewPath;
    forall hash | Needs(t, hash) ensures exists i :: 0 <= i < |rows| && rows[i].hash == hash {
      assert hash in Hashes(rows);
      var r :| r in rows && r.hash == hash;
    }
  }

  /** Any rows can be the first ones of a listing. */
  lemma {:induction false} CompleteListing(t: Records, first: seq<Row>, left: set<string>) returns (rows: seq<Row>)
    requires ArePart(t, first) && left == set hash | hash in t.canonical && Needs(t, hash) && hash !in Hashes(first)
    ensures IsListing(t, rows) && first <= rows
    decreases |left|
  {
    hide Needs, NewPath, ArePart, Hashes, IsListing;
    if left == {} {
      rows := first;
      forall hash | hash in t.canonical && Needs(t, hash) ensures hash in Hashes(rows) {
        assert hash !in left;
      }
      AllRowsListed(t, rows);
    } else {
      var hash :| hash in left;
      OneRowMore(t, first, hash);
      rows := CompleteListing(t, first + [RowOf(t, hash)], left - {hash});
      assert first <= first + [RowOf(t, hash)];
    }
  }

  lemma NeedsIsRecorded(t: Records, hash: string)
    requires Needs(t, hash)
    ensures hash in t.canonical && Less(NewPath(t, hash), t.canonical[hash])
  {
  }

  /** A path to be promoted that another hash has: with the promotion in front, that row fails. */
  lemma TakenPathFails(t: Records, g: string, h: string) returns (rows: seq<Row>)
    requires g in t.canonical && Needs(t, h) && g != h && NewPath(t, h) == t.canonical[g]
    ensures IsListing(t, rows) && !ClashFree(t, rows)
  {
    hide Needs, NewPath;
    NeedsIsRecorded(t, h);
    rows := CompleteListing(t, [RowOf(t, h)], set x | x in t.canonical && Needs(t, x) && x !in Hashes([RowOf(t, h)]));
    assert rows[0] == RowOf(t, h);
    assert Hashes(rows[..0]) == {};
    assert !TurnFree(t, rows, 0);
  }

  /** Two hashes in need of the same path: whichever row comes second fails. */
  lemma SamePathFails(t: Records, rows: seq<Row>, g: string, h: string)
    requires IsListing(t, rows) && g in t.canonical && Needs(t, h) && g != h && NewPath(t, g) == NewPath(t, h)
    ensures !ClashFree(t, rows)
  {
    var i :| 0 <= i < |rows| && rows[i].hash == h;
    if Needs(t, g) {
      var j :| 0 <= j < |rows| && rows[j].hash == g;
      hide Needs, NewPath;
      if i < j {
        assert rows[i] in rows[..j];
        assert !TurnFree(t, rows, j);
      } else {
        assert rows[j] in rows[..i];
        assert !TurnFree(t, rows, i);
      }
    } else {
      assert g !in Hashes(rows[..i]);
      assert !TurnFree(t, rows, i);
    }
  }

  lemma FreeInEveryOrder(t: Records, rows: seq<Row>)
    requires PromotionsFree(t) && IsListing(t, rows)
    ensures ClashFree(t, rows)
  {
    hide Needs, NewPath, Hashes;
    forall i | 0 <= i < |rows| ensures TurnFree(t, rows, i) {
      NeedsIsRecorded(t, rows[i].hash);
    }
  }

  /** A listing exists. */
  lemma ListingExists(t: Records) returns (rows: seq<Row>)
    ensures IsListing(t, rows)
  {
    rows := CompleteListing(t, [], set x | x in t.canonical && Needs(t, x) && x !in Hashes([]));
  }

  /** The pass succeeds whatever order the database lists the rows in exactly if no promoted path is taken. */
  lemma EveryOrderSucceeds(t: Records)
    requires WellFormed(t)
    ensures (forall rows | IsListing(t, rows) :: ClashFree(t, rows)) <==> PromotionsFree(t)
  {
    hide NewPath, IsListing, ClashFree;
    if PromotionsFree(t) {
      forall rows | IsListing(t, rows) ensures ClashFree(t, rows) {
        FreeInEveryOrder(t, rows);
      }
    } else if SmallestDiffer(t) {
      var g, h :| g in t.canonical && Needs(t, h) && g != h && NewPath(t, h) == t.canonical[g];
      var rows := TakenPathFails(t, g, h);
    } else {
      var g, h :| g in t.canonical && h in t.canonical && g != h && NewPath(t, g) == NewPath(t, h);
      var rows := ListingExists(t);
      SharedSmallestFails(t, rows, g, h);
    }
  }

  lemma SharedSmallestFails(t: Records, rows: seq<Row>, g: string, h: string)
    requires WellFormed(t) && IsListing(t, rows)
    requires g in t.canonical && h in t.canonical && g != h && NewPath(t, g) == NewPath(t, h)
    ensures !ClashFree(t, rows)
  {
    if Needs(t, h) {
      SamePathFails(t, rows, g, h);
    } else {
      SamePathFails(t, rows, h, g);
    }
  }

  predicate Ascending(rows: seq<Row>) {
    forall i, j | 0 <= i < j < |rows| :: Less(rows[i].canonical, rows[j].canonical)
  }

  lemma SmallestFirst(t: Records, rest: seq<Row>, hash: string)
    requires ArePart(t, rest) && Ascending(rest) && hash in t.canonical && Needs(t, hash) && hash !in Hashes(rest)
    requires forall i | 0 <= i < |rest| :: Less(t.canonical[hash], rest[i].canonical)
    ensures var rows := [RowOf(t, hash)] + rest; ArePart(t, rows) && Ascending(rows) && Hashes(rows) == {hash} + Hashes(rest)
  {
    hide Needs, NewPath, Less;
    assert forall i | 0 <= i < |rest| :: rest[i] in rest;
  }

  /** The hashes of `left` with the smallest canonical path first. */
  lemma {:induction false} AscendingRows(t: Records, left: set<string>) returns (rows: seq<Row>)
    requires WellFormed(t) && forall hash | hash in left :: hash in t.canonical && Needs(t, hash)
    ensures ArePart(t, rows) && Hashes(rows) == left && Ascending(rows)
    decreases |left|
  {
    hide Needs, NewPath, Less;
    if left == {} {
      rows := [];
    } else {
      var hash := SmallestHash(t, left);
      var rest := AscendingRows(t, left - {hash});
      forall i | 0 <= i < |rest| ensures Less(t.canonical[hash], rest[i].canonical) {
        assert rest[i] in rest;
        assert rest[i].hash in Hashes(rest);
      }
      SmallestFirst(t, rest, hash);
      rows := [RowOf(t, hash)] + rest;
    }
  }

  lemma SmallestHash(t: Records, left: set<string>) returns (hash: string)
    requires WellFormed(t) && left != {} && left <= t.canonical.Keys
    ensures hash in left && forall other | other in left && other != hash :: Less(t.canonical[hash], t.canonical[other])
  {
    var paths := set h | h in left :: t.canonical[h];
    var some :| some in left;
    assert t.canonical[some] in paths;
    var least := Smallest(paths);
    assert least in paths && forall x | x in paths :: x == least || Less(least, x);
    hash :| hash in left && t.canonical[hash] == least;
    forall other | other in left && other != hash ensures Less(t.canonical[hash], t.canonical[other]) {
      assert t.canonical[other] in paths;
      assert hash in t.canonical.Keys && other in t.canonical.Keys;
    }
  }

  lemma NotInPrefix(rows: seq<Row>, i: nat, j: nat)
    requires i <= |rows| && j < |rows| && rows[j].hash !in Hashes(rows[..i])
    ensures j >= i
  {
    assert forall k | 0 <= k < i :: rows[..i][k] == rows[k];
  }

  lemma LeftBefore(t: Records, rows: seq<Row>, i: nat, g: string)
    requires SmallestDiffer(t) && IsListing(t, rows) && Ascending(rows)
    requires i < |rows| && g in t.canonical && g != rows[i].hash && g !in Hashes(rows[..i])
    ensures rows[i].smallest != t.canonical[g]
  {
    NeedsIsRecorded(t, rows[i].hash);
    if Needs(t, g) {
      var j :| 0 <= j < |rows| && rows[j].hash == g;
      NotInPrefix(rows, i, j);
      hide Needs, NewPath, Less;
      LessIsStrict(rows[i].smallest, rows[i].canonical);
      LessIsStrict(rows[i].canonical, rows[j].canonical);
    }
  }

  /** In ascending order a hash has left its path before that path is promoted for another. */
  lemma AscendingSucceeds(t: Records, rows: seq<Row>)
    requires SmallestDiffer(t) && IsListing(t, rows) && Ascending(rows)
    ensures ClashFree(t, rows)
  {
    hide Needs, NewPath, Hashes, Ascending;
    forall i | 0 <= i < |rows| ensures TurnFree(t, rows, i) {
      NeedsIsRecorded(t, rows[i].hash);
      forall g | g in t.canonical && g != rows[i].hash
        ensures rows[i].smallest != if g in Hashes(rows[..i]) then NewPath(t, g) else t.canonical[g]
      {
        if g !in Hashes(rows[..i]) {
          LeftBefore(t, rows, i, g);
        }
      }
    }
  }

  /** There is an order in which the pass succeeds exactly if no two hashes have the same smallest path. */
  lemma SomeOrderSucceeds(t: Records)
    requires WellFormed(t)
    ensures (exists rows :: IsListing(t, rows) && ClashFree(t, rows)) <==> SmallestDiffer(t)
  {
    hide Needs, NewPath, ClashFree;
    if SmallestDiffer(t) {
      var left := set hash | hash in t.canonical && Needs(t, hash);
      var rows := AscendingRows(t, left);
      AllRowsListed(t, rows);
      AscendingSucceeds(t, rows);
    } else {
      var g, h :| g in t.canonical && h in t.canonical && g != h && NewPath(t, g) == NewPath(t, h);
      forall rows | IsListing(t, rows) ensures !ClashFree(t, rows) {
        SharedSmallestFails(t, rows, g, h);
      }
    }
  }

  /** What the tables say of an order of the rows. */
  lemma TablesDecide(t: Records, rows: seq<Row>)
    requires WellFormed(t) && IsListing(t, rows)
    ensures PromotionsFree(t) ==> ClashFree(t, rows)
    ensures ClashFree(t, rows) ==> SmallestDiffer(t)
  {
    hide IsListing, ClashFree, PromotionsFree, SmallestDiffer;
    EveryOrderSucceeds(t);
    SomeOrderSucceeds(t);
  }

  // ---- the code -------------------------------------------------------------------------------------------

  /** No other hash has the path the row promotes. */
  predicate Free(t: Records, r: Row) {
    forall other | other in t.canonical && other != r.hash :: t.canonical[other] != r.smallest
  }

  function Promoted(t: Records, r: Row): Records {
    Records(t.canonical[r.hash := r.smallest], t.duplicates - {(r.hash, r.smallest)} + {(r.hash, r.canonical)})
  }

  lemma NeedsHasRow(t: Records)
    ensures forall hash | Needs(t, hash) ::
              && hash in t.canonical && DuplicatePaths(t, hash) != {}
              && RowOf(t, hash) == Row(hash, t.canonical[hash], Smallest(DuplicatePaths(t, hash)))
  {
  }

  class Database {
    var t: Records

    constructor ()
      ensures t == EMPTY
    {
      t := EMPTY;
    }

    /** The `SELECT`; the database chooses the order. */
    method ListNeeding() returns (rows: seq<Row>)
      ensures IsListing(t, rows)
    {
      NeedsHasRow(t);
      hide Needs, NewPath, DuplicatePaths, RowOf, Smallest;
      var left := set hash | hash in t.canonical && Needs(t, hash);
      rows := [];
      while left != {}
        invariant forall hash | hash in left :: Needs(t, hash)
        invariant forall i | 0 <= i < |rows| ::
                    && Needs(t, rows[i].hash) && rows[i].hash !in left
                    && rows[i] == RowOf(t, rows[i].hash)
        invariant forall i, j | 0 <= i < j < |rows| :: rows[i].hash != rows[j].hash
        invariant forall hash | Needs(t, hash) :: hash in left || exists i :: 0 <= i < |rows| && rows[i].hash == hash
        decreases |left|
      {
        var hash :| hash in left;
        left := left - {hash};
        ghost var before := rows;
        rows := rows + [Row(hash, t.canonical[hash], Smallest(DuplicatePaths(t, hash)))];
        assert rows[|before|].hash == hash;
        assert forall i | 0 <= i < |before| :: rows[i] == before[i];
      }
    }

    /** `UpdateBookFilePath`: fails when another row has the path. */
    method UpdatePath(hash: string, path: string) returns (ok: bool)
      requires hash in t.canonical
      modifies this
      ensures ok <==> forall other | other in old(t).canonical && other != hash :: old(t).canonical[other] != path
      ensures t == if ok then old(t).(canonical := old(t).canonical[hash := path]) else old(t)
    {
      if exists other | other in t.canonical :: other != hash && t.canonical[other] == path {
        return false;
      }
      t := t.(canonical := t.canonical[hash := path]);
      return true;
    }

    /** One row of the pass: the promoted path leaves the duplicates, the replaced one becomes a duplicate. */
    method Promote(r: Row) returns (ok: bool)
      requires r.hash in t.canonical
      modifies this
      ensures ok <==> Free(old(t), r)
      ensures ok ==> t == Promoted(old(t), r)
    {
      t := t.(duplicates := t.duplicates - {(r.hash, r.smallest)});
      ok := UpdatePath(r.hash, r.smallest);
      if ok {
        t := t.(duplicates := t.duplicates + {(r.hash, r.canonical)});
      }
    }

    /** `canonicalizeBookFiles` in the transaction of `Consolidate`: one failure undoes the whole pass. */
    method Canonicalize() returns (ok: bool, ghost rows: seq<Row>)
      requires WellFormed(t)
      modifies this
      ensures IsListing(old(t), rows)
      ensures ok <==> ClashFree(old(t), rows)
      ensures PromotionsFree(old(t)) ==> ok
      ensures ok ==> SmallestDiffer(old(t))
      ensures t == if ok then Canonicalized(old(t)) else old(t)
    {
      hide After, Needs, NewPath, DuplicatePaths, Hashes, TurnFree, IsListing, Free, Promoted, WellFormed, PromotionsFree,
        SmallestDiffer;
      var listed := ListNeeding();
      rows := listed;
      var before := t;
      TablesDecide(before, rows);
      NothingDone(before, rows);
      for i := 0 to |listed|
        invariant Hashes(rows[..i]) <= before.canonical.Keys
        invariant t == After(before, Hashes(rows[..i]))
        invariant forall j | 0 <= j < i :: TurnFree(before, rows, j)
      {
        Turn(before, rows, i);
        ok := Promote(listed[i]);
        if !ok {
          t := before;
          return;
        }
      }
      assert rows[..|rows|] == rows;
      AllListed(before, rows);
      return true, rows;
    }

    /** `shouldSkip`: two lookups by path. */
    method ShouldSkip(resume: bool, path: string) returns (skip: bool)
      ensures skip <==> resume && Recorded(t, path)
    {
      if !resume {
        return false;
      }
      if exists hash | hash in t.canonical :: t.canonical[hash] == path {
        return true;
      }
      return exists d | d in t.duplicates :: d.1 == path;
    }
  }

  lemma NothingDone(t: Records, rows: seq<Row>)
    ensures Hashes(rows[..0]) == {} && After(t, Hashes(rows[..0])) == t
  {
    hide NewPath;
  }

  lemma TurnIsFree(t: Records, rows: seq<Row>, i: nat)
    requires i < |rows| && Hashes(rows[..i]) <= t.canonical.Keys
    ensures TurnFree(t, rows, i) <==> Free(After(t, Hashes(rows[..i])), rows[i])
  {
    hide NewPath, Hashes;
    var s, done := After(t, Hashes(rows[..i])), Hashes(rows[..i]);
    assert forall h | h in t.canonical :: s.canonical[h] == if h in done then NewPath(t, h) else t.canonical[h];
    assert s.canonical.Keys == t.canonical.Keys;
  }

  lemma OneMore(t: Records, done: set<string>, r: Row)
    requires done <= t.canonical.Keys && r.hash in t.canonical && r.hash !in done
    requires r.smallest == NewPath(t, r.hash) && r.canonical == t.canonical[r.hash]
    ensures r.hash in After(t, done).canonical
    ensures After(t, done + {r.hash}) == Promoted(After(t, done), r)
  {
    hide NewPath;
  }

  /** One turn: whether it succeeds, and that it adds the row's hash to those that are canonical. */
  lemma Turn(t: Records, rows: seq<Row>, i: nat)
    requires IsListing(t, rows) && i < |rows| && Hashes(rows[..i]) <= t.canonical.Keys
    ensures var s := After(t, Hashes(rows[..i]));
      && rows[i].hash in s.canonical
      && (TurnFree(t, rows, i) <==> Free(s, rows[i]))
      && Hashes(rows[..i + 1]) <= t.canonical.Keys
      && After(t, Hashes(rows[..i + 1])) == Promoted(s, rows[i])
  {
    hide NewPath, After, TurnFree, Free, Promoted;
    TurnIsFree(t, rows, i);
    assert rows[..i + 1] == rows[..i] + [rows[i]];
    assert Hashes(rows[..i + 1]) == Hashes(rows[..i]) + {rows[i].hash};
    assert rows[i].hash !in Hashes(rows[..i]);
    OneMore(t, Hashes(rows[..i]), rows[i]);
  }

  lemma AllListed(t: Records, rows: seq<Row>)
    requires IsListing(t, rows)
    ensures Hashes(rows) == set hash | hash in t.canonical && Needs(t, hash)
  {
    forall hash | Needs(t, hash) ensures hash in Hashes(rows) {
      var i :| 0 <= i < |rows| && rows[i].hash == hash;
      assert rows[i] in rows;
    }
  }
}
