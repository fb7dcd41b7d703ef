/**
 * Consolidation (internal/report/books.go:63-206): the book-level lists are computed from the raw file rows, written to
 * tables with primary keys and read back in the order of their ordinals (internal/report/books.go:300-364).
 */
module Consolidation {
  import opened Base
  import opened Merging
  import Identifiers
  import Publications
  import Canonical
  import Resume

  type Id = nat

  // ---- a table of lists -----------------------------------------------------------------------------------

  /** One book's rows by their key, each with its ordinal. */
  type Rows<K, V> = map<K, (nat, V)>
  type Table<K, V> = map<Id, Rows<K, V>>

  /** `INSERT ... ON CONFLICT DO NOTHING`. */
  function Insert<K, V>(rows: Rows<K, V>, item: (K, V), ordinal: nat): Rows<K, V> {
    if item.0 in rows then rows else rows[item.0 := (ordinal, item.1)]
  }

  function InsertAll<K, V>(items: seq<(K, V)>): Rows<K, V> {
    if items == [] then map[] else Insert(InsertAll(items[..|items| - 1]), items[|items| - 1], |items| - 1)
  }

  /** `SELECT ... ORDER BY ordinal`. */
  ghost predicate IsSelection<K, V>(rows: Rows<K, V>, out: seq<(K, V)>) {
    && |out| == |rows| && DistinctKeys(out)
    && (forall i | 0 <= i < |out| :: out[i].0 in rows && rows[out[i].0].1 == out[i].1)
    && (forall i, j | 0 <= i < j < |out| :: rows[out[i].0].0 <= rows[out[j].0].0)
  }

  /** Deletes the book's rows and inserts the list again, numbered from 0. */
  method Replace<K(==), V>(t: Table<K, V>, id: Id, items: seq<(K, V)>) returns (r: Table<K, V>)
    ensures r == t[id := InsertAll(items)]
  {
    r := t[id := map[]];
    for i := 0 to |items|
      invariant r == t[id := InsertAll(items[..i])]
    {
      assert items[..i + 1][..i] == items[..i];
      r := r[id := Insert(r[id], items[i], i)];
    }
    assert items[..|items|] == items;
  }

  method SelectOrdered<K(==), V>(rows: Rows<K, V>) returns (out: seq<(K, V)>)
    ensures IsSelection(rows, out)
  {
    out := [];
    var left := rows.Keys;
    while left != {}
      invariant left <= rows.Keys && |out| + |left| == |rows.Keys|
      invariant DistinctKeys(out)
      invariant forall i | 0 <= i < |out| :: out[i].0 in rows && out[i].0 !in left && rows[out[i].0].1 == out[i].1
      invariant forall i, j | 0 <= i < j < |out| :: rows[out[i].0].0 <= rows[out[j].0].0
      invariant forall i, k | 0 <= i < |out| && k in left :: rows[out[i].0].0 <= rows[k].0
      decreases |left|
    {
      LowestExists(rows, left);
      var k :| k in left && forall l | l in left :: rows[k].0 <= rows[l].0;
      left := left - {k};
      out := out + [(k, rows[k].1)];
    }
  }

  lemma {:induction false} LowestExists<K, V>(rows: Rows<K, V>, left: set<K>)
    requires left != {} && left <= rows.Keys
    ensures exists k :: k in left && forall l | l in left :: rows[k].0 <= rows[l].0
    decreases |left|
  {
    var x :| x in left;
    var rest := left - {x};
    assert left == rest + {x};
    if rest != {} {
      LowestExists(rows, rest);
      var k :| k in rest && forall l | l in rest :: rows[k].0 <= rows[l].0;
      assert rows[k].0 <= rows[x].0 ==> forall l | l in left :: rows[k].0 <= rows[l].0;
    }
  }

  /** With distinct keys every item gets its row, numbered by its place. */
  lemma {:induction false} AllInserted<K, V>(items: seq<(K, V)>)
    requires DistinctKeys(items)
    ensures |InsertAll(items)| == |items|
    ensures forall k :: k in InsertAll(items) <==> exists i :: 0 <= i < |items| && items[i].0 == k
    ensures forall i | 0 <= i < |items| :: items[i].0 in InsertAll(items) && InsertAll(items)[items[i].0] == (i, items[i].1)
    decreases |items|
  {
    if items != [] {
      var n := |items| - 1;
      var init := items[..n];
      AllInserted(init);
      assert forall i | 0 <= i < n :: init[i] == items[i];
      assert items[n].0 !in InsertAll(init);
    }
  }

  /** A key that repeats keeps its first row. */
  lemma {:induction false} FirstInserted<K, V>(items: seq<(K, V)>, i: nat)
    requires i < |items| && forall j | 0 <= j < i :: items[j].0 != items[i].0
    ensures items[i].0 in InsertAll(items) && InsertAll(items)[items[i].0] == (i, items[i].1)
    decreases |items|
  {
    var n := |items| - 1;
    if i < n {
      FirstInserted(items[..n], i);
    } else {
      NotInserted(items[..n], items[i].0);
    }
  }

  lemma {:induction false} NotInserted<K, V>(items: seq<(K, V)>, k: K)
    requires forall j | 0 <= j < |items| :: items[j].0 != k
    ensures k !in InsertAll(items)
    decreases |items|
  {
    if items != [] {
      NotInserted(items[..|items| - 1], k);
    }
  }

  /** A strictly increasing numbering of n places by numbers below n is the identity. */
  lemma {:induction false} IncreasingIsIdentity(f: seq<nat>, i: nat)
    requires forall i, j | 0 <= i < j < |f| :: f[i] < f[j]
    requires forall i | 0 <= i < |f| :: f[i] < |f|
    requires i < |f|
    ensures f[i] == i
  {
    AtLeast(f, i);
    AtMost(f, i);
  }

  lemma {:induction false} AtLeast(f: seq<nat>, i: nat)
    requires i < |f| && forall i, j | 0 <= i < j < |f| :: f[i] < f[j]
    ensures f[i] >= i
  {
    if i > 0 {
      AtLeast(f, i - 1);
    }
  }

  lemma {:induction false} AtMost(f: seq<nat>, i: nat)
    requires i < |f| && forall i, j | 0 <= i < j < |f| :: f[i] < f[j]
    requires forall i | 0 <= i < |f| :: f[i] < |f|
    ensures f[i] <= i
    decreases |f| - i
  {
    if i < |f| - 1 {
      AtMost(f, i + 1);
    }
  }

  /** The list read back is the list written, exactly when no key occurs twice. */
  lemma ReadBack<K, V>(items: seq<(K, V)>, out: seq<(K, V)>)
    requires IsSelection(InsertAll(items), out)
    ensures out == items <==> DistinctKeys(items)
  {
    if DistinctKeys(items) {
      AllInserted(items);
      hide InsertAll;
      var rows := InsertAll(items);
      var f := seq(|out|, i requires 0 <= i < |out| => rows[out[i].0].0);
      forall i | 0 <= i < |out| ensures f[i] < |items| && items[f[i]] == out[i] {
        var j :| 0 <= j < |items| && items[j].0 == out[i].0;
      }
      forall i | 0 <= i < |out| ensures out[i] == items[i] {
        IncreasingIsIdentity(f, i);
      }
    }
  }

  // ---- the report of a book -------------------------------------------------------------------------------

  /** The single-valued columns of `books`. */
  datatype BookRow = BookRow(title: string, description: string, series: string, seriesIndex: string)

  datatype Report = Report(
    row: BookRow,
    authors: seq<string>,
    subjects: seq<string>,
    languages: seq<string>,
    identifiers: seq<Identifiers.Identifier>,
    publications: seq<Publications.Imprint>)

  /** What the raw file rows say about a book, in the order of the queries; the scan wrote it, consolidation reads it. */
  datatype RawBook = RawBook(
    row: BookRow,
    authors: seq<string>,
    subjects: seq<string>,
    languages: seq<string>,
    identifiers: seq<Identifiers.Identifier>,
    imprints: seq<Publications.Imprint>)

  /** The text functions, and how titles, authors and the like are chosen: all of it pure. */
  datatype Rules = Rules(
    normalize: string -> string,
    fold: string -> string,
    tag: string -> Option<string>,
    isIsbn: string -> bool,
    canonicalIsbn: string -> Option<string>,
    raw: (Canonical.Records, Id) -> RawBook)

  function ReportOf(rules: Rules, records: Canonical.Records, id: Id): Report {
    var raw := rules.raw(records, id);
    Report(
      raw.row,
      raw.authors,
      MergedSubjects(raw.subjects, rules.normalize, rules.fold),
      MergedLanguages(raw.languages, rules.tag),
      Identifiers.Merged(raw.identifiers, rules.isIsbn, rules.canonicalIsbn),
      Publications.Merged(raw.imprints, rules.fold))
  }

  function NameItems(names: seq<string>): (r: seq<(string, ())>)
    ensures |r| == |names|
  {
    seq(|names|, i requires 0 <= i < |names| => (names[i], ()))
  }

  function IdentifierItems(ids: seq<Identifiers.Identifier>): (r: seq<((string, string), Identifiers.Source)>)
    ensures |r| == |ids|
  {
    seq(|ids|, i requires 0 <= i < |ids| => ((ids[i].scheme, ids[i].value), ids[i].source))
  }

  function PublicationItems(ps: seq<Publications.Imprint>): (r: seq<((string, string), ())>)
    ensures |r| == |ps|
  {
    seq(|ps|, i requires 0 <= i < |ps| => ((ps[i].publisher, ps[i].date), ()))
  }

  /** No list of a report repeats a primary key. */
  lemma ReportKeysDistinct(rules: Rules, records: Canonical.Records, id: Id)
    ensures var r := ReportOf(rules, records, id);
      && DistinctKeys(NameItems(r.subjects)) && DistinctKeys(NameItems(r.languages))
      && DistinctKeys(IdentifierItems(r.identifiers)) && DistinctKeys(PublicationItems(r.publications))
  {
    var raw := rules.raw(records, id);
    MergesDistinct(raw.subjects, raw.languages, rules.normalize, rules.fold, rules.tag);
    Identifiers.MergedValues(raw.identifiers, rules.isIsbn, rules.canonicalIsbn);
    Publications.PublicationsDistinct(raw.imprints, rules.fold);
    hide MergedSubjects, MergedLanguages, Identifiers.Merged, Publications.Merged;
  }

  // ---- the book tables ------------------------------------------------------------------------------------

  /** `fileAuthors` are the authors of files, which keep their rows. */
  datatype Tables = Tables(
    books: map<Id, BookRow>,
    subjects: Table<string, ()>,
    languages: Table<string, ()>,
    identifiers: Table<(string, string), Identifiers.Source>,
    publications: Table<(string, string), ()>,
    bookAuthors: map<Id, set<string>>,
    fileAuthors: set<string>,
    authors: set<string>)

  function Persisted(t: Tables, id: Id, r: Report): Tables {
    Tables(
      t.books[id := r.row],
      t.subjects[id := InsertAll(NameItems(r.subjects))],
      t.languages[id := InsertAll(NameItems(r.languages))],
      t.identifiers[id := InsertAll(IdentifierItems(r.identifiers))],
      t.publications[id := InsertAll(PublicationItems(r.publications))],
      t.bookAuthors[id := set a | a in r.authors],
      t.fileAuthors,
      t.authors + set a | a in r.authors)
  }

  function PersistAll(rules: Rules, records: Canonical.Records, t: Tables, ids: seq<Id>): Tables {
    if ids == [] then t
    else
      var id := ids[|ids| - 1];
      Persisted(PersistAll(rules, records, t, ids[..|ids| - 1]), id, ReportOf(rules, records, id))
  }

  predicate Referenced(t: Tables, author: string) {
    author in t.fileAuthors || exists id | id in t.bookAuthors :: author in t.bookAuthors[id]
  }

  function WithoutOrphans(t: Tables): Tables {
    t.(authors := set a | a in t.authors && Referenced(t, a))
  }

  /** What `Consolidate` makes of the tables when canonicalization succeeds. */
  function Consolidated(rules: Rules, records: Canonical.Records, t: Tables, ids: seq<Id>): Tables {
    WithoutOrphans(PersistAll(rules, Canonical.Canonicalized(records), t, ids))
  }

  /** The links of one book, written anew, and the authors they may have to create. */
  method LinkAuthors(authors: set<string>, names: seq<string>) returns (linked: set<string>, all: set<string>)
    ensures linked == (set a | a in names) && all == authors + linked
  {
    linked, all := {}, authors;
    for i := 0 to |names|
      invariant linked == (set a | a in names[..i]) && all == authors + linked
    {
      all := all + {names[i]};
      linked := linked + {names[i]};
    }
    assert names[..|names|] == names;
  }

  class Library {
    const rules: Rules
    const ids: seq<Id>   // the books that have files, in the order of their ids
    const files: Canonical.Database
    var t: Tables

    constructor (rules: Rules, ids: seq<Id>, files: Canonical.Database, t: Tables)
      ensures this.rules == rules && this.ids == ids && this.files == files && this.t == t
    {
      this.rules, this.ids, this.files, this.t := rules, ids, files, t;
    }

    method PersistBook(id: Id, r: Report)
      modifies this
      ensures t == Persisted(old(t), id, r)
    {
      hide InsertAll, NameItems, IdentifierItems, PublicationItems;
      t := t.(books := t.books[id := r.row]);
      var subjects := Replace(t.subjects, id, NameItems(r.subjects));
      var languages := Replace(t.languages, id, NameItems(r.languages));
      var identifiers := Replace(t.identifiers, id, IdentifierItems(r.identifiers));
      var publications := Replace(t.publications, id, PublicationItems(r.publications));
      t := t.(subjects := subjects, languages := languages, identifiers := identifiers, publications := publications);
      var linked, authors := LinkAuthors(t.authors, r.authors);
      t := t.(bookAuthors := t.bookAuthors[id := linked], authors := authors);
    }

    method PersistBooks()
      modifies this
      ensures t == PersistAll(rules, files.t, old(t), ids)
    {
      for i := 0 to |ids|
        invariant files.t == old(files.t) && t == PersistAll(rules, files.t, old(t), ids[..i])
      {
        assert ids[..i + 1][..i] == ids[..i];
        hide ReportOf, Persisted;
        var r := ReportOf(rules, files.t, ids[i]);
        PersistBook(ids[i], r);
      }
      assert ids[..|ids|] == ids;
    }

    /** The whole pass; it fails, and then changes nothing, exactly when a canonical path clashes. */
    method Consolidate() returns (ok: bool, ghost rows: seq<Canonical.Row>)
      requires Canonical.WellFormed(files.t)
      modifies this, files
      ensures Canonical.IsListing(old(files.t), rows) && (ok <==> Canonical.ClashFree(old(files.t), rows))
      ensures Canonical.PromotionsFree(old(files.t)) ==> ok
      ensures ok ==> Canonical.SmallestDiffer(old(files.t))
      ensures files.t == if ok then Canonical.Canonicalized(old(files.t)) else old(files.t)
      ensures t == if ok then Consolidated(rules, old(files.t), old(t), ids) else old(t)
    {
      hide PersistAll, Referenced, Canonical.Canonicalized, Canonical.ClashFree, Canonical.IsListing, Canonical.WellFormed,
        Canonical.PromotionsFree, Canonical.SmallestDiffer;
      ok, rows := files.Canonicalize();
      if !ok {
        return;
      }
      PersistBooks();
      t := t.(authors := set a | a in t.authors && Referenced(t, a));
    }

    /** The four lists of `getBookReport`. */
    method GetLists(id: Id)
      returns (subjects: seq<(string, ())>, languages: seq<(string, ())>,
               identifiers: seq<((string, string), Identifiers.Source)>, publications: seq<((string, string), ())>)
      requires id in t.subjects && id in t.languages && id in t.identifiers && id in t.publications
      ensures IsSelection(t.subjects[id], subjects) && IsSelection(t.languages[id], languages)
      ensures IsSelection(t.identifiers[id], identifiers) && IsSelection(t.publications[id], publications)
    {
      subjects := SelectOrdered(t.subjects[id]);
      languages := SelectOrdered(t.languages[id]);
      identifiers := SelectOrdered(t.identifiers[id]);
      publications := SelectOrdered(t.publications[id]);
    }
  }

  // ---- what consolidation leaves --------------------------------------------------------------------------

  /** The tables hold this report of the book. */
  ghost predicate Holds(t: Tables, id: Id, r: Report) {
    && id in t.books && t.books[id] == r.row
    && id in t.subjects && t.subjects[id] == InsertAll(NameItems(r.subjects))
    && id in t.languages && t.languages[id] == InsertAll(NameItems(r.languages))
    && id in t.identifiers && t.identifiers[id] == InsertAll(IdentifierItems(r.identifiers))
    && id in t.publications && t.publications[id] == InsertAll(PublicationItems(r.publications))
    && id in t.bookAuthors && t.bookAuthors[id] == (set a | a in r.authors) && t.bookAuthors[id] <= t.authors
  }

  predicate DistinctIds(ids: seq<Id>) {
    forall i, j | 0 <= i < j < |ids| :: ids[i] != ids[j]
  }

  lemma PersistedHolds(t: Tables, id: Id, r: Report, other: Id, s: Report)
    ensures Holds(Persisted(t, id, r), id, r)
    ensures other != id && Holds(t, other, s) ==> Holds(Persisted(t, id, r), other, s)
  {
    hide InsertAll, NameItems, IdentifierItems, PublicationItems;
  }

  lemma PersistedBefore(t: Tables, id: Id, r: Report)
    requires Holds(t, id, r)
    ensures Persisted(t, id, r) == t
  {
    hide InsertAll, NameItems, IdentifierItems, PublicationItems;
  }

  lemma {:induction false} AllHold(rules: Rules, records: Canonical.Records, t: Tables, ids: seq<Id>, id: Id)
    requires DistinctIds(ids) && id in ids
    ensures Holds(PersistAll(rules, records, t, ids), id, ReportOf(rules, records, id))
    decreases |ids|
  {
    hide Holds, Persisted, ReportOf;
    var n := |ids| - 1;
    var before := PersistAll(rules, records, t, ids[..n]);
    if id != ids[n] {
      AllHold(rules, records, t, ids[..n], id);
    }
    PersistedHolds(before, ids[n], ReportOf(rules, records, ids[n]), id, ReportOf(rules, records, id));
  }

  lemma {:induction false} PersistAgain(rules: Rules, records: Canonical.Records, t: Tables, ids: seq<Id>)
    requires forall id | id in ids :: Holds(t, id, ReportOf(rules, records, id))
    ensures PersistAll(rules, records, t, ids) == t
    decreases |ids|
  {
    hide Holds, Persisted, ReportOf;
    if ids != [] {
      var n := |ids| - 1;
      PersistAgain(rules, records, t, ids[..n]);
      PersistedBefore(t, ids[n], ReportOf(rules, records, ids[n]));
    }
  }

  lemma OrphansAreNotHeld(t: Tables, id: Id, r: Report)
    requires Holds(t, id, r)
    ensures Holds(WithoutOrphans(t), id, r)
  {
    hide InsertAll, NameItems, IdentifierItems, PublicationItems;
    forall a | a in t.bookAuthors[id] ensures Referenced(t, a) {
    }
  }

  lemma OrphansTwice(t: Tables)
    ensures WithoutOrphans(WithoutOrphans(t)) == WithoutOrphans(t)
  {
    assert forall a :: Referenced(WithoutOrphans(t), a) <==> Referenced(t, a);
  }

  /** A second consolidation changes nothing. */
  lemma ConsolidateTwice(rules: Rules, records: Canonical.Records, t: Tables, ids: seq<Id>)
    requires DistinctIds(ids)
    ensures var s := Consolidated(rules, records, t, ids);
      Consolidated(rules, Canonical.Canonicalized(records), s, ids) == s
  {
    hide Holds, ReportOf, Referenced, Canonical.Canonicalized, PersistAll, WithoutOrphans;
    var c := Canonical.Canonicalized(records);
    Resume.CanonicalizeTwice(records);
    var p := PersistAll(rules, c, t, ids);
    var s := WithoutOrphans(p);
    forall id | id in ids ensures Holds(s, id, ReportOf(rules, c, id)) {
      AllHold(rules, c, t, ids, id);
      OrphansAreNotHeld(p, id, ReportOf(rules, c, id));
    }
    PersistAgain(rules, c, s, ids);
    OrphansTwice(p);
  }

  /** What `PersistAll` leaves of the author table: what there was, and the authors of all reports. */
  lemma {:induction false} AuthorsPersisted(rules: Rules, records: Canonical.Records, t: Tables, ids: seq<Id>, a: string)
    ensures var p := PersistAll(rules, records, t, ids);
      && p.fileAuthors == t.fileAuthors
      && (a in p.authors <==> a in t.authors || exists id :: id in ids && a in ReportOf(rules, records, id).authors)
    decreases |ids|
  {
    hide ReportOf, InsertAll, NameItems, IdentifierItems, PublicationItems;
    if ids != [] {
      AuthorsPersisted(rules, records, t, ids[..|ids| - 1], a);
    }
  }

  /**
   * After consolidation each book has exactly the authors of its report, they are in the author table, an author that a
   * file names stays there, and none is there that neither a file nor a book names.
   */
  lemma AuthorsLeft(rules: Rules, records: Canonical.Records, t: Tables, ids: seq<Id>, id: Id, a: string)
    requires DistinctIds(ids)
    ensures var s, c := Consolidated(rules, records, t, ids), Canonical.Canonicalized(records);
      && (id in ids ==> id in s.bookAuthors && (a in s.bookAuthors[id] <==> a in rules.raw(c, id).authors))
      && (id in ids && a in rules.raw(c, id).authors ==> a in s.authors)
      && (a in t.authors && a in t.fileAuthors ==> a in s.authors)
      && (a in s.authors ==> a in t.fileAuthors || exists b :: b in s.bookAuthors && a in s.bookAuthors[b])
      && (id in ids ==> id in s.books && s.books[id] == rules.raw(c, id).row)
  {
    var c := Canonical.Canonicalized(records);
    var p := PersistAll(rules, c, t, ids);
    AuthorsPersisted(rules, c, t, ids, a);
    if id in ids {
      AllHold(rules, c, t, ids, id);
    }
    hide Canonical.Canonicalized, PersistAll, InsertAll, NameItems, IdentifierItems, PublicationItems;
  }

  /** Every list of the report read back from consolidated tables is, in order, the list computed. */
  lemma ReportReadBack(rules: Rules, records: Canonical.Records, t: Tables, ids: seq<Id>, id: Id,
                       subjects: seq<(string, ())>, languages: seq<(string, ())>,
                       identifiers: seq<((string, string), Identifiers.Source)>, publications: seq<((string, string), ())>)
    requires DistinctIds(ids) && id in ids
    requires var s := Consolidated(rules, records, t, ids);
      && id in s.subjects && IsSelection(s.subjects[id], subjects)
      && id in s.languages && IsSelection(s.languages[id], languages)
      && id in s.identifiers && IsSelection(s.identifiers[id], identifiers)
      && id in s.publications && IsSelection(s.publications[id], publications)
    ensures var raw := rules.raw(Canonical.Canonicalized(records), id);
      && subjects == NameItems(MergedSubjects(raw.subjects, rules.normalize, rules.fold))
      && languages == NameItems(MergedLanguages(raw.languages, rules.tag))
      && identifiers == IdentifierItems(Identifiers.Merged(raw.identifiers, rules.isIsbn, rules.canonicalIsbn))
      && publications == PublicationItems(Publications.Merged(raw.imprints, rules.fold))
  {
    var c := Canonical.Canonicalized(records);
    var r := ReportOf(rules, c, id);
    var raw := rules.raw(c, id);
    assert r.subjects == MergedSubjects(raw.subjects, rules.normalize, rules.fold);
    assert r.languages == MergedLanguages(raw.languages, rules.tag);
    assert r.identifiers == Identifiers.Merged(raw.identifiers, rules.isIsbn, rules.canonicalIsbn);
    assert r.publications == Publications.Merged(raw.imprints, rules.fold);
    hide ReportOf, Referenced, Canonical.Canonicalized, PersistAll, IsSelection, InsertAll, WithoutOrphans, MergedSubjects,
      MergedLanguages, Identifiers.Merged, Publications.Merged, NameItems, IdentifierItems, PublicationItems;
    AllHold(rules, c, t, ids, id);
    OrphansAreNotHeld(PersistAll(rules, c, t, ids), id, r);
    ReportKeysDistinct(rules, c, id);
    ReadBack(NameItems(r.subjects), subjects);
    ReadBack(NameItems(r.languages), languages);
    ReadBack(IdentifierItems(r.identifiers), identifiers);
    ReadBack(PublicationItems(r.publications), publications);
  }
}
