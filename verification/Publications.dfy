/** Publishers with their publication dates (internal/report/book_metadata.go:109-156). */
module Publications {
  import opened Base
  import opened Merging

  /** Publisher and date as `normalizeMeta` and `normalizePublicationDate` return them. */
  datatype Imprint = Imprint(publisher: string, date: string)

  datatype Group = Group(publisher: string, dates: seq<string>, seen: set<string>)

  /** A file that names a publisher or a date counts for the publisher's group. */
  function GroupItem(f: Imprint, fold: string -> string): Item<string, string> {
    if f.publisher == "" && f.date == "" then None else Some((fold(f.publisher), f.publisher))
  }

  function DateItem(f: Imprint, key: string, fold: string -> string): Item<string, string> {
    if f.date != "" && fold(f.publisher) == key then Some((f.date, f.date)) else None
  }

  /** The groups in the order of their first file, each under the spelling found there. */
  function Groups(files: seq<Imprint>, fold: string -> string): seq<(string, string)> {
    Firsts(Each(files, f => GroupItem(f, fold)))
  }

  function DateItems(files: seq<Imprint>, key: string, fold: string -> string): seq<Item<string, string>> {
    Each(files, f => DateItem(f, key, fold))
  }

  /** The dates of a group in the order of their first file. */
  function Dates(files: seq<Imprint>, key: string, fold: string -> string): seq<string> {
    Values(Firsts(DateItems(files, key, fold)))
  }

  /** One entry per date; a publisher without any date stands alone. */
  function Entries(publisher: string, dates: seq<string>): seq<Imprint> {
    if dates == [] then if publisher == "" then [] else [Imprint(publisher, "")]
    else seq(|dates|, i requires 0 <= i < |dates| => Imprint(publisher, dates[i]))
  }

  function AllEntries(groups: seq<(string, string)>, files: seq<Imprint>, fold: string -> string): seq<Imprint> {
    if groups == [] then []
    else
      var n := |groups| - 1;
      AllEntries(groups[..n], files, fold) + Entries(groups[n].1, Dates(files, groups[n].0, fold))
  }

  function Merged(files: seq<Imprint>, fold: string -> string): seq<Imprint> {
    AllEntries(Groups(files, fold), files, fold)
  }

  // ---- the code -------------------------------------------------------------------------------------------

  /** `order` and `groups` hold these groups, each with its publisher. */
  ghost predicate Ordered(groups: map<string, Group>, order: seq<string>, found: seq<(string, string)>) {
    && |order| == |found|
    && forall i | 0 <= i < |order| ::
         order[i] == found[i].0 && order[i] in groups && groups[order[i]].publisher == found[i].1
  }

  function DatesIn(groups: map<string, Group>, key: string): seq<string> {
    if key in groups then groups[key].dates else []
  }

  function SeenIn(groups: map<string, Group>, key: string): set<string> {
    if key in groups then groups[key].seen else {}
  }

  ghost predicate Dated(groups: map<string, Group>, files: seq<Imprint>, fold: string -> string, key: string) {
    DatesIn(groups, key) == Dates(files, key, fold) && SeenIn(groups, key) == Occurring(DateItems(files, key, fold))
  }

  /** The groups collected from `files`. */
  ghost predicate Collected(groups: map<string, Group>, order: seq<string>, files: seq<Imprint>, fold: string -> string) {
    && groups.Keys == Occurring(Each(files, f => GroupItem(f, fold)))
    && Ordered(groups, order, Groups(files, fold))
    && forall key :: Dated(groups, files, fold, key)
  }

  method MergePublications(files: seq<Imprint>, fold: string -> string) returns (out: seq<Imprint>)
    ensures out == Merged(files, fold)
  {
    var groups: map<string, Group>, order: seq<string> := map[], [];
    for n := 0 to |files|
      invariant Collected(groups, order, files[..n], fold)
    {
      groups, order := Collect(groups, order, files, n, files[n], fold);
    }
    assert files[..|files|] == files;
    hide Groups;
    out := [];
    for i := 0 to |order|
      invariant out == AllEntries(Groups(files, fold)[..i], files, fold)
    {
      assert Groups(files, fold)[..i + 1][..i] == Groups(files, fold)[..i];
      var g := groups[order[i]];
      assert Dated(groups, files, fold, order[i]);
      out := Append(out, g);
    }
    assert Groups(files, fold)[..|order|] == Groups(files, fold);
  }

  /** One turn of the second loop. */
  method Append(out: seq<Imprint>, g: Group) returns (out': seq<Imprint>)
    ensures out' == out + Entries(g.publisher, g.dates)
  {
    out' := out;
    if |g.dates| == 0 {
      if g.publisher != "" {
        out' := out' + [Imprint(g.publisher, "")];
      }
      return;
    }
    for j := 0 to |g.dates|
      invariant out' == out + Entries(g.publisher, g.dates)[..j]
    {
      out' := out' + [Imprint(g.publisher, g.dates[j])];
    }
  }

  lemma GroupsStep(files: seq<Imprint>, n: nat, fold: string -> string)
    requires n < |files|
    ensures var seen := Occurring(Each(files[..n], f => GroupItem(f, fold)));
      var item := GroupItem(files[n], fold);
      && Occurring(Each(files[..n + 1], f => GroupItem(f, fold))) == seen + (if item.Some? then {item.value.0} else {})
      && Groups(files[..n + 1], fold)
         == Groups(files[..n], fold) + if item.Some? && item.value.0 !in seen then [item.value] else []
  {
    EachAppend(files, n, f => GroupItem(f, fold));
    FirstsAppend(Each(files[..n], f => GroupItem(f, fold)), GroupItem(files[n], fold));
    OccurringAppend(Each(files[..n], f => GroupItem(f, fold)), GroupItem(files[n], fold));
    hide Firsts, Occurring;
  }

  lemma DatesStep(files: seq<Imprint>, n: nat, key: string, fold: string -> string)
    requires n < |files|
    ensures var seen, dates, f := Occurring(DateItems(files[..n], key, fold)), Dates(files[..n], key, fold), files[n];
      var counts := f.date != "" && fold(f.publisher) == key;
      && Occurring(DateItems(files[..n + 1], key, fold)) == seen + (if counts then {f.date} else {})
      && Dates(files[..n + 1], key, fold) == dates + if counts && f.date !in seen then [f.date] else []
  {
    KeptStep(files, n, f => DateItem(f, key, fold));
    hide Firsts, Occurring;
  }

  /** The group for `key`, made if it is not there. */
  method Enter(groups: map<string, Group>, order: seq<string>, key: string, publisher: string, ghost found: seq<(string, string)>)
    returns (groups': map<string, Group>, order': seq<string>)
    requires Ordered(groups, order, found)
    ensures groups'.Keys == groups.Keys + {key}
    ensures Ordered(groups', order', found + if key in groups then [] else [(key, publisher)])
    ensures forall k :: DatesIn(groups', k) == DatesIn(groups, k) && SeenIn(groups', k) == SeenIn(groups, k)
  {
    groups', order' := groups, order;
    if key !in groups' {
      groups' := groups'[key := Group(publisher, [], {})];
      order' := order' + [key];
    }
  }

  method AddDate(groups: map<string, Group>, order: seq<string>, key: string, date: string, ghost found: seq<(string, string)>)
    returns (groups': map<string, Group>)
    requires Ordered(groups, order, found) && key in groups
    ensures groups'.Keys == groups.Keys && Ordered(groups', order, found)
    ensures DatesIn(groups', key) == DatesIn(groups, key) + if date in SeenIn(groups, key) then [] else [date]
    ensures SeenIn(groups', key) == SeenIn(groups, key) + {date}
    ensures forall k | k != key :: DatesIn(groups', k) == DatesIn(groups, k) && SeenIn(groups', k) == SeenIn(groups, k)
  {
    var g := groups[key];
    if date in g.seen {
      return groups;
    }
    groups' := groups[key := Group(g.publisher, g.dates + [date], g.seen + {date})];
  }

  lemma AllDated(groups: map<string, Group>, groups': map<string, Group>, files: seq<Imprint>, n: nat, fold: string -> string, key: string)
    requires n < |files| && Dated(groups, files[..n], fold, key)
    requires var f := files[n];
      if f.date != "" && fold(f.publisher) == key
      then DatesIn(groups', key) == DatesIn(groups, key) + (if f.date in SeenIn(groups, key) then [] else [f.date])
           && SeenIn(groups', key) == SeenIn(groups, key) + {f.date}
      else DatesIn(groups', key) == DatesIn(groups, key) && SeenIn(groups', key) == SeenIn(groups, key)
    ensures Dated(groups', files[..n + 1], fold, key)
  {
    DatesStep(files, n, key, fold);
    hide Dates, DateItems, DatesIn, SeenIn, Occurring;
  }

  /** One turn of the first loop. */
  method Collect(groups: map<string, Group>, order: seq<string>, ghost files: seq<Imprint>, ghost n: nat, f: Imprint,
                 fold: string -> string)
    returns (groups': map<string, Group>, order': seq<string>)
    requires n < |files| && files[n] == f && Collected(groups, order, files[..n], fold)
    ensures Collected(groups', order', files[..n + 1], fold)
  {
    hide Occurring, Groups, Each, Dated, Ordered, DatesIn, SeenIn;
    GroupsStep(files, n, fold);
    groups', order' := groups, order;
    if f.publisher != "" || f.date != "" {
      var key := fold(f.publisher);
      groups', order' := Enter(groups', order', key, f.publisher, Groups(files[..n], fold));
      if f.date != "" {
        groups' := AddDate(groups', order', key, f.date, Groups(files[..n + 1], fold));
      }
    }
    ghost var upto := files[..n + 1];
    assert Groups(files[..n], fold) + [] == Groups(files[..n], fold);
    forall key ensures Dated(groups', upto, fold, key) {
      AllDated(groups, groups', files, n, fold, key);
    }
  }

  // ---- which publications come out ------------------------------------------------------------------------

  /** File `j` is the first to name the publisher, in its spelling, or a date without one. */
  ghost predicate FirstSpelling(files: seq<Imprint>, fold: string -> string, p: string, j: nat) {
    && j < |files| && files[j].publisher == p && (p != "" || files[j].date != "")
    && forall i | 0 <= i < j && (files[i].publisher != "" || files[i].date != "") :: fold(files[i].publisher) != fold(p)
  }

  lemma FirstSpellingIs(files: seq<Imprint>, fold: string -> string, k: string, p: string, j: nat)
    ensures FirstAt(Each(files, f => GroupItem(f, fold)), j, (k, p)) <==> FirstSpelling(files, fold, p, j) && k == fold(p)
  {
    var items := Each(files, f => GroupItem(f, fold));
    if j < |files| {
      assert items[j] == GroupItem(files[j], fold);
      assert forall i | 0 <= i < j :: items[i] == GroupItem(files[i], fold);
      hide Each;
    }
  }

  lemma GroupsExact(files: seq<Imprint>, fold: string -> string, g: (string, string))
    ensures g in Groups(files, fold) <==> g.0 == fold(g.1) && exists j: nat :: FirstSpelling(files, fold, g.1, j)
  {
    var items := Each(files, f => GroupItem(f, fold));
    hide Firsts, Each, FirstAt, FirstSpelling;
    FirstsExact(items, g);
    forall j: nat ensures FirstAt(items, j, g) <==> FirstSpelling(files, fold, g.1, j) && g.0 == fold(g.1) {
      FirstSpellingIs(files, fold, g.0, g.1, j);
      assert g == (g.0, g.1);
    }
  }

  /** Some file gives the date for the publisher, in whatever spelling. */
  ghost predicate HasDate(files: seq<Imprint>, fold: string -> string, p: string, d: string) {
    d != "" && exists j :: 0 <= j < |files| && fold(files[j].publisher) == fold(p) && files[j].date == d
  }

  lemma DatesExact(files: seq<Imprint>, fold: string -> string, p: string, d: string)
    ensures d in Dates(files, fold(p), fold) <==> HasDate(files, fold, p, d)
  {
    var items := DateItems(files, fold(p), fold);
    InValues(Firsts(items), d);
    FirstsKeys(items);
    forall e | e in Firsts(items) ensures e.0 == e.1 && Some(e) in items {
      var i :| 0 <= i < |Firsts(items)| && Firsts(items)[i] == e;
      FirstsAreItems(items, i);
    }
    hide Firsts;
    if d in Dates(files, fold(p), fold) {
      var e :| e in Firsts(items) && e.1 == d;
      var j :| 0 <= j < |items| && items[j] == Some(e);
      assert fold(files[j].publisher) == fold(p) && files[j].date == d;
    }
    if HasDate(files, fold, p, d) {
      var j :| 0 <= j < |files| && fold(files[j].publisher) == fold(p) && files[j].date == d;
      assert items[j] == Some((d, d)) && d in Occurring(items);
      var i :| 0 <= i < |Firsts(items)| && Firsts(items)[i].0 == d;
      assert Firsts(items)[i] in Firsts(items);
    }
  }

  lemma {:induction false} InAllEntries(groups: seq<(string, string)>, files: seq<Imprint>, fold: string -> string, e: Imprint)
    ensures e in AllEntries(groups, files, fold)
       <==> exists i :: 0 <= i < |groups| && e in Entries(groups[i].1, Dates(files, groups[i].0, fold))
    decreases |groups|
  {
    hide Entries, Dates;
    if groups != [] {
      var n := |groups| - 1;
      InAllEntries(groups[..n], files, fold, e);
    }
  }

  lemma InEntries(p: string, dates: seq<string>, e: Imprint)
    ensures e in Entries(p, dates) <==> e.publisher == p && if dates == [] then p != "" && e.date == "" else e.date in dates
  {
    if dates != [] && e.publisher == p && e.date in dates {
      var i :| 0 <= i < |dates| && dates[i] == e.date;
      assert Entries(p, dates)[i] == e;
    }
  }

  /**
   * A publisher comes out in the spelling of its first file, with each date some file gives for it; without any date it
   * comes out alone, and a date without a publisher is kept too.
   */
  lemma MergedExact(files: seq<Imprint>, fold: string -> string, p: string, d: string)
    ensures Imprint(p, d) in Merged(files, fold)
       <==> (exists j: nat :: FirstSpelling(files, fold, p, j))
            && if d == "" then p != "" && forall x :: !HasDate(files, fold, p, x) else HasDate(files, fold, p, d)
  {
    var groups, e, dates := Groups(files, fold), Imprint(p, d), Dates(files, fold(p), fold);
    InAllEntries(groups, files, fold, e);
    hide Groups, Dates, FirstSpelling, HasDate, Entries, AllEntries;
    GroupsExact(files, fold, (fold(p), p));
    forall x ensures x in dates <==> HasDate(files, fold, p, x) {
      DatesExact(files, fold, p, x);
    }
    InEntries(p, dates, e);
    forall i | 0 <= i < |groups| && e in Entries(groups[i].1, Dates(files, groups[i].0, fold)) ensures groups[i] == (fold(p), p) {
      InEntries(groups[i].1, Dates(files, groups[i].0, fold), e);
      assert groups[i] in groups;
      GroupsExact(files, fold, groups[i]);
      assert groups[i] == (groups[i].0, groups[i].1);
    }
    if (fold(p), p) in groups {
      var i :| 0 <= i < |groups| && groups[i] == (fold(p), p);
    }
    NoBlankDate(files, fold, p);
    assert dates == [] <==> forall x :: x !in dates by {
      if dates != [] {
        assert dates[0] in dates;
      }
    }
  }

  /** Two entries in turn come from groups in turn, or from two places of one group. */
  lemma {:induction false} EntriesInOrder(
    groups: seq<(string, string)>, files: seq<Imprint>, fold: string -> string, a: nat, b: nat)
    returns (g: nat, h: nat, x: nat, y: nat)
    requires a < b < |AllEntries(groups, files, fold)|
    ensures g <= h < |groups| && (g == h ==> x < y)
    ensures var es := Entries(groups[g].1, Dates(files, groups[g].0, fold)); x < |es| && es[x] == AllEntries(groups, files, fold)[a]
    ensures var es := Entries(groups[h].1, Dates(files, groups[h].0, fold)); y < |es| && es[y] == AllEntries(groups, files, fold)[b]
    decreases |groups|
  {
    hide Entries, Dates;
    var n := |groups| - 1;
    var before := AllEntries(groups[..n], files, fold);
    if b < |before| {
      g, h, x, y := EntriesInOrder(groups[..n], files, fold, a, b);
    } else if a < |before| {
      g, x := EntryIn(groups[..n], files, fold, a);
      h, y := n, b - |before|;
    } else {
      g, h, x, y := n, n, a - |before|, b - |before|;
    }
  }

  lemma {:induction false} EntryIn(groups: seq<(string, string)>, files: seq<Imprint>, fold: string -> string, k: nat)
    returns (g: nat, x: nat)
    requires k < |AllEntries(groups, files, fold)|
    ensures g < |groups|
    ensures var es := Entries(groups[g].1, Dates(files, groups[g].0, fold)); x < |es| && es[x] == AllEntries(groups, files, fold)[k]
    decreases |groups|
  {
    hide Entries, Dates;
    var n := |groups| - 1;
    var before := AllEntries(groups[..n], files, fold);
    if k < |before| {
      g, x := EntryIn(groups[..n], files, fold, k);
    } else {
      g, x := n, k - |before|;
    }
  }

  /** The first file with the date for the publisher. */
  predicate FirstDate(files: seq<Imprint>, fold: string -> string, p: string, d: string, j: nat) {
    && j < |files| && fold(files[j].publisher) == fold(p) && files[j].date == d
    && forall i | 0 <= i < j :: fold(files[i].publisher) != fold(p) || files[i].date != d
  }

  lemma FirstDateIs(files: seq<Imprint>, fold: string -> string, p: string, e: (string, string), j: nat)
    requires FirstAt(DateItems(files, fold(p), fold), j, e)
    ensures FirstDate(files, fold, p, e.1, j)
  {
    var items := DateItems(files, fold(p), fold);
    assert forall k | 0 <= k < |items| :: items[k] == DateItem(files[k], fold(p), fold);
    hide Each;
  }

  /** Publishers come in the order of their first files, and the dates of one publisher in the order of theirs. */
  lemma MergedInOrder(files: seq<Imprint>, fold: string -> string, a: nat, b: nat) returns (i: nat, j: nat)
    requires a < b < |Merged(files, fold)|
    ensures i < j
    ensures var e, f := Merged(files, fold)[a], Merged(files, fold)[b];
      if e.publisher == f.publisher
      then FirstDate(files, fold, e.publisher, e.date, i) && FirstDate(files, fold, f.publisher, f.date, j)
      else FirstSpelling(files, fold, e.publisher, i) && FirstSpelling(files, fold, f.publisher, j)
  {
    var groups := Groups(files, fold);
    var items := Each(files, f => GroupItem(f, fold));
    hide Each, FirstAt, FirstSpelling, FirstDate, Dates, DateItems, Firsts;
    var g, h, x, y := EntriesInOrder(groups, files, fold, a, b);
    var e, f := Merged(files, fold)[a], Merged(files, fold)[b];
    assert groups[g] in groups && groups[h] in groups;
    GroupsExact(files, fold, groups[g]);
    GroupsExact(files, fold, groups[h]);
    assert e.publisher == groups[g].1 && f.publisher == groups[h].1;
    if g == h {
      var dates := DateItems(files, fold(e.publisher), fold);
      assert Dates(files, groups[g].0, fold) == Values(Firsts(dates)) by { DatesAre(files, groups[g].0, fold); }
      i, j := FirstsInOrder(dates, x, y);
      FirstDateIs(files, fold, e.publisher, Firsts(dates)[x], i);
      FirstDateIs(files, fold, e.publisher, Firsts(dates)[y], j);
    } else {
      FirstsKeys(items);
      i, j := FirstsInOrder(items, g, h);
      FirstSpellingIs(files, fold, groups[g].0, groups[g].1, i);
      FirstSpellingIs(files, fold, groups[h].0, groups[h].1, j);
      assert groups[g] == (groups[g].0, groups[g].1) && groups[h] == (groups[h].0, groups[h].1);
      assert groups[g].0 != groups[h].0;
    }
  }

  lemma DatesAre(files: seq<Imprint>, key: string, fold: string -> string)
    ensures Dates(files, key, fold) == Values(Firsts(DateItems(files, key, fold)))
  {
  }

  lemma NoBlankDate(files: seq<Imprint>, fold: string -> string, p: string)
    ensures !HasDate(files, fold, p, "")
  {
  }

  // ---- no publication is listed twice ---------------------------------------------------------------------

  /** Each entry comes from one of the groups. */
  lemma {:induction false} EntryAt(groups: seq<(string, string)>, files: seq<Imprint>, fold: string -> string, k: nat)
    returns (i: nat)
    requires k < |AllEntries(groups, files, fold)|
    ensures i < |groups| && AllEntries(groups, files, fold)[k] in Entries(groups[i].1, Dates(files, groups[i].0, fold))
    decreases |groups|
  {
    var n := |groups| - 1;
    if k < |AllEntries(groups[..n], files, fold)| {
      i := EntryAt(groups[..n], files, fold, k);
    } else {
      i := n;
    }
  }

  lemma EntriesDistinct(publisher: string, dates: seq<string>)
    requires Distinct(dates)
    ensures Distinct(Entries(publisher, dates)) && forall e | e in Entries(publisher, dates) :: e.publisher == publisher
  {
  }

  lemma {:induction false} AllDistinct(groups: seq<(string, string)>, files: seq<Imprint>, fold: string -> string)
    requires DistinctKeys(groups) && forall i | 0 <= i < |groups| :: groups[i].0 == fold(groups[i].1)
    ensures Distinct(AllEntries(groups, files, fold))
    decreases |groups|
  {
    if groups == [] {
    } else {
      var n := |groups| - 1;
      var before, last := AllEntries(groups[..n], files, fold), Entries(groups[n].1, Dates(files, groups[n].0, fold));
      AllDistinct(groups[..n], files, fold);
      DatesDistinct(files, groups[n].0, fold);
      EntriesDistinct(groups[n].1, Dates(files, groups[n].0, fold));
      forall i, j | 0 <= i < |before| && 0 <= j < |last| ensures before[i] != last[j] {
        var g := EntryAt(groups[..n], files, fold, i);
        DatesDistinct(files, groups[g].0, fold);
        EntriesDistinct(groups[g].1, Dates(files, groups[g].0, fold));
      }
      hide Dates, Entries;
    }
  }

  lemma DatesDistinct(files: seq<Imprint>, key: string, fold: string -> string)
    ensures Distinct(Dates(files, key, fold))
  {
    ValuesDistinct(DateItems(files, key, fold), d => d);
  }

  /** Publisher and date together identify a publication, so none is lost to the primary key. */
  lemma PublicationsDistinct(files: seq<Imprint>, fold: string -> string)
    ensures Distinct(Merged(files, fold))
  {
    var items := Each(files, f => GroupItem(f, fold));
    FirstsKeys(items);
    forall i | 0 <= i < |Groups(files, fold)| ensures Groups(files, fold)[i].0 == fold(Groups(files, fold)[i].1) {
      FirstsAreItems(items, i);
    }
    AllDistinct(Groups(files, fold), files, fold);
  }
}
