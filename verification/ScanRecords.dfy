/** The scan's transaction seen by the canonicalization pass: which paths it records for which content. */
module ScanRecords {
  import opened Grouping
  import Canonical
  import Resume

  ghost function PathOf(files: Files, hash: string): string
    requires HashTaken(files, hash)
  {
    var f :| f in files && files[f].hash == hash;
    files[f].path
  }

  ghost function PathsOf(files: Files): map<string, string> {
    map hash | hash in (set f | f in files :: files[f].hash) :: PathOf(files, hash)
  }

  ghost function RecordsOf(t: Tables): Canonical.Records {
    Canonical.Records(PathsOf(t.files), t.duplicates)
  }

  ghost predicate HashesDiffer(files: Files) {
    forall f, g | f in files && g in files && f != g :: files[f].hash != files[g].hash
  }

  lemma PathsOfFile(files: Files, f: Id)
    requires HashesDiffer(files) && f in files
    ensures files[f].hash in PathsOf(files) && PathsOf(files)[files[f].hash] == files[f].path
  {
  }

  lemma PathAfterInsert(files: Files, n: Id, row: FileRow, hash: string)
    requires HashesDiffer(files) && n !in files && !HashTaken(files, row.hash)
    ensures var before, after := PathsOf(files)[row.hash := row.path], PathsOf(files[n := row]);
      && (hash in after <==> hash in before)
      && (hash in after ==> after[hash] == before[hash])
  {
    var later := files[n := row];
    assert later[n] == row;
    if f :| f in later && later[f].hash == hash {
      PathsOfFile(later, f);
      if f != n {
        assert files[f] == later[f];
        PathsOfFile(files, f);
      }
    }
    if f :| f in files && files[f].hash == hash {
      assert later[f] == files[f];
    }
  }

  lemma PathsAfterInsert(files: Files, n: Id, row: FileRow)
    requires HashesDiffer(files) && n !in files && !HashTaken(files, row.hash)
    ensures PathsOf(files[n := row]) == PathsOf(files)[row.hash := row.path]
  {
    var before, after := PathsOf(files)[row.hash := row.path], PathsOf(files[n := row]);
    forall hash ensures (hash in after <==> hash in before) && (hash in after ==> after[hash] == before[hash]) {
      PathAfterInsert(files, n, row, hash);
    }
    hide PathsOf;
  }

  lemma RecordsWellFormed(t: Tables, sim: Similarity)
    requires Inv(t, sim)
    ensures Canonical.WellFormed(RecordsOf(t))
  {
    hide Indexed, Grouped, AllPlaced;
  }

  lemma PathTakenIs(t: Tables, sim: Similarity, path: string)
    requires Inv(t, sim)
    ensures PathTaken(t.files, path) <==> path in RecordsOf(t).canonical.Values
  {
    hide Indexed, Grouped, AllPlaced;
    if f :| f in t.files && t.files[f].path == path {
      PathsOfFile(t.files, f);
    }
  }

  /** Storing a parsed file records its path as `Resume.Record` says, unless the content has no hash or the row is refused. */
  lemma OutcomeRecords(t: Tables, sim: Similarity, md: Metadata, path: string, ok: bool, after: Tables)
    requires Inv(t, sim) && Outcome(t, sim, md, path, ok, after)
    ensures RecordsOf(after)
         == if md.hash == "" || (!HashTaken(t.files, md.hash) && !Distinct(md.authors)) then RecordsOf(t)
            else Resume.Record(RecordsOf(t), path, md.hash)
  {
    PathTakenIs(t, sim, path);
    if ok && md.hash != "" && !HashTaken(t.files, md.hash) {
      hide Indexed, Grouped, AllPlaced, BookFor;
      var b :| BookFor(t, sim, md.minhash, b) && after == Stored(t, md, path, b);
      PathsAfterInsert(t.files, t.nextFile, FileRow(md.hash, path, after.files[t.nextFile].minhash));
      hide PathsOf;
    }
  }

  // ---- a scan, and the pass over its tables ---------------------------------------------------------------

  /** One file of a scan: what was parsed, where, and whether storing it succeeded. */
  datatype Parsed = Parsed(md: Metadata, path: string, ok: bool)

  /** `ts` are the tables before the first file and after each one. */
  ghost predicate IsScan(ts: seq<Tables>, files: seq<Parsed>, sim: Similarity) {
    && |ts| == |files| + 1 && ts[0] == EMPTY
    && forall i | 0 <= i < |files| :: Outcome(ts[i], sim, files[i].md, files[i].path, files[i].ok, ts[i + 1])
  }

  /** The files that reach the tables: those with a hash, unless they are new and repeat an author. */
  ghost function Reaching(ts: seq<Tables>, files: seq<Parsed>): seq<(string, string)>
    requires |ts| == |files| + 1
  {
    if files == [] then []
    else
      var n := |files| - 1;
      var f := files[n];
      Reaching(ts[..|ts| - 1], files[..n])
      + if f.md.hash != "" && (HashTaken(ts[n].files, f.md.hash) || Distinct(f.md.authors)) then [(f.path, f.md.hash)] else []
  }

  /** After a whole scan the tables keep their invariant and record what `Resume.Scanned` says of the files that reach them. */
  lemma {:induction false} ScanIsRecorded(ts: seq<Tables>, files: seq<Parsed>, sim: Similarity)
    requires IsScan(ts, files, sim)
    ensures Inv(ts[|files|], sim) && RecordsOf(ts[|files|]) == Resume.Scanned(Reaching(ts, files))
    decreases |files|
  {
    if files == [] {
      EmptyRecords(sim);
    } else {
      var n := |files| - 1;
      var f := files[n];
      var before := ts[..|ts| - 1];
      ScanIsRecorded(before, files[..n], sim);
      hide Inv, RecordsOf, Outcome, HashTaken, Distinct;
      assert before[n] == ts[n];
      OutcomeKeepsInv(ts[n], sim, f.md, f.path, f.ok, ts[n + 1]);
      OutcomeRecords(ts[n], sim, f.md, f.path, f.ok, ts[n + 1]);
      var reached := Reaching(before, files[..n]);
      Resume.ScannedAppend(reached, f.path, f.md.hash);
      assert reached + [] == reached;
    }
  }

  lemma EmptyRecords(sim: Similarity)
    ensures Inv(EMPTY, sim) && RecordsOf(EMPTY) == Canonical.EMPTY
  {
  }

  /** The pass over the tables of a scan: they meet what it needs, and it either makes every smallest path canonical or changes nothing. */
  method CanonicalizeScan(ghost ts: seq<Tables>, ghost files: seq<Parsed>, ghost sim: Similarity, db: Canonical.Database)
    returns (ok: bool)
    requires IsScan(ts, files, sim) && db.t == RecordsOf(ts[|files|])
    modifies db
    ensures var t := Resume.Scanned(Reaching(ts, files));
      && (Canonical.PromotionsFree(t) ==> ok) && (ok ==> Canonical.SmallestDiffer(t))
      && db.t == if ok then Canonical.Canonicalized(t) else t
  {
    ScanIsRecorded(ts, files, sim);
    RecordsWellFormed(ts[|files|], sim);
    hide IsScan, Inv, RecordsOf, Reaching, Resume.Scanned, Canonical.PromotionsFree, Canonical.SmallestDiffer;
    ghost var rows;
    ok, rows := db.Canonicalize();
  }
}
