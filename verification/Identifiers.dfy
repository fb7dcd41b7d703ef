/** Merging identifiers with their provenance (internal/report/book_metadata.go:214-237, internal/identifier/identifier.go). */
module Identifiers {
  import opened Base
  import opened Merging

  // ---- provenance -----------------------------------------------------------------------------------------

  datatype Source = Metadata | Text | MetadataAndText | Unknown(name: string)

  datatype Identifier = Identifier(scheme: string, value: string, source: Source)

  function NormalizeSource(s: Source): (r: Source)
    ensures !r.Unknown?
  {
    if s.Unknown? then Metadata else s
  }

  function MergeSources(a: Source, b: Source): Source {
    if NormalizeSource(a) == NormalizeSource(b) then NormalizeSource(a) else MetadataAndText
  }

  /** The provenance of a value seen with these sources: theirs if they agree, else both. */
  function Joined(sources: set<Source>): Source {
    if sources == {Metadata} then Metadata else if sources == {Text} then Text else MetadataAndText
  }

  lemma JoinOneMore(sources: set<Source>, b: Source)
    requires sources != {} && forall s | s in sources :: !s.Unknown?
    ensures Joined(sources + {NormalizeSource(b)}) == MergeSources(Joined(sources), b)
  {
    var n := NormalizeSource(b);
    var s :| s in sources;
    assert s in sources + {n} && n in sources + {n};
    if sources + {n} == {n} {
      assert sources == {n};
    }
  }

  // ---- identifiers ----------------------------------------------------------------------------------------

  /** The value an identifier counts for: its canonical ISBN-13, if it is an ISBN. */
  function Isbn(item: Identifier, isIsbn: string -> bool, canonical: string -> Option<string>): Option<string> {
    if isIsbn(item.scheme) then canonical(item.value) else None
  }

  function Isbns(values: seq<Identifier>, isIsbn: string -> bool, canonical: string -> Option<string>):
    (items: seq<Item<string, string>>)
    ensures |items| == |values|
  {
    seq(|values|, i requires 0 <= i < |values| =>
      match Isbn(values[i], isIsbn, canonical) case None => None case Some(v) => Some((v, v)))
  }

  /** With which sources the value `v` occurs. */
  function SourcesOf(values: seq<Identifier>, isIsbn: string -> bool, canonical: string -> Option<string>, v: string): set<Source> {
    set i | 0 <= i < |values| && Isbn(values[i], isIsbn, canonical) == Some(v) :: NormalizeSource(values[i].source)
  }

  /** One identifier per ISBN, in the order of their first occurrence, with everything that was known of its source. */
  function Merged(values: seq<Identifier>, isIsbn: string -> bool, canonical: string -> Option<string>): (r: seq<Identifier>)
    ensures |r| == |Firsts(Isbns(values, isIsbn, canonical))|
  {
    var kept := Firsts(Isbns(values, isIsbn, canonical));
    seq(|kept|, i requires 0 <= i < |kept| =>
      Identifier("ISBN", kept[i].0, Joined(SourcesOf(values, isIsbn, canonical, kept[i].0))))
  }

  lemma IsbnsAppend(values: seq<Identifier>, n: nat, isIsbn: string -> bool, canonical: string -> Option<string>)
    requires n < |values|
    ensures Isbns(values[..n + 1], isIsbn, canonical)
         == Isbns(values[..n], isIsbn, canonical)
            + [match Isbn(values[n], isIsbn, canonical) case None => None case Some(v) => Some((v, v))]
  {
  }

  lemma SourcesAppend(values: seq<Identifier>, n: nat, isIsbn: string -> bool, canonical: string -> Option<string>, v: string)
    requires n < |values|
    ensures SourcesOf(values[..n + 1], isIsbn, canonical, v)
         == SourcesOf(values[..n], isIsbn, canonical, v)
            + if Isbn(values[n], isIsbn, canonical) == Some(v) then {NormalizeSource(values[n].source)} else {}
  {
    var all := values[..n + 1];
    assert all[n] == values[n];
    assert forall i | 0 <= i < n :: all[i] == values[..n][i];
  }

  lemma SourcesKnown(values: seq<Identifier>, isIsbn: string -> bool, canonical: string -> Option<string>, v: string)
    ensures SourcesOf(values, isIsbn, canonical, v) == {} <==> v !in Occurring(Isbns(values, isIsbn, canonical))
    ensures forall s | s in SourcesOf(values, isIsbn, canonical, v) :: !s.Unknown?
  {
    var items := Isbns(values, isIsbn, canonical);
    if v in Occurring(items) {
      var j :| 0 <= j < |items| && items[j].Some? && items[j].value.0 == v;
      assert NormalizeSource(values[j].source) in SourcesOf(values, isIsbn, canonical, v);
    }
    if s :| s in SourcesOf(values, isIsbn, canonical, v) {
      var i :| 0 <= i < |values| && Isbn(values[i], isIsbn, canonical) == Some(v);
      assert items[i] == Some((v, v));
    }
  }

  /** `m` with the source of the value `v` joined with `source`. */
  function WithSource(m: seq<Identifier>, v: string, source: Source): seq<Identifier> {
    seq(|m|, i requires 0 <= i < |m| => if m[i].value == v then m[i].(source := MergeSources(m[i].source, source)) else m[i])
  }

  lemma OneWithSource(m: seq<Identifier>, k: nat, source: Source)
    requires k < |m| && DistinctValues(m)
    ensures WithSource(m, m[k].value, source) == m[k := m[k].(source := MergeSources(m[k].source, source))]
  {
  }

  predicate DistinctValues(m: seq<Identifier>) {
    forall i, j | 0 <= i < j < |m| :: m[i].value != m[j].value
  }

  /** One occurrence of the ISBN `v` more changes its source, or adds an entry. */
  lemma MergedStep(values: seq<Identifier>, n: nat, isIsbn: string -> bool, canonical: string -> Option<string>, v: string)
    requires n < |values| && Isbn(values[n], isIsbn, canonical) == Some(v)
    ensures var m, seen := Merged(values[..n], isIsbn, canonical), Occurring(Isbns(values[..n], isIsbn, canonical));
      && Occurring(Isbns(values[..n + 1], isIsbn, canonical)) == seen + {v}
      && Merged(values[..n + 1], isIsbn, canonical)
         == if v in seen then WithSource(m, v, values[n].source)
            else m + [Identifier("ISBN", v, MergeSources(values[n].source, values[n].source))]
  {
    var m, w := Merged(values[..n], isIsbn, canonical), Merged(values[..n + 1], isIsbn, canonical);
    var before := Isbns(values[..n], isIsbn, canonical);
    IsbnsAppend(values, n, isIsbn, canonical);
    FirstsAppend(before, Some((v, v)));
    OccurringAppend(before, Some((v, v)));
    FirstsKeys(before);
    hide Firsts, Occurring, Isbns, SourcesOf;
    forall i | 0 <= i < |m| ensures w[i] == WithSource(m, v, values[n].source)[i] && (v !in Occurring(before) ==> w[i] == m[i]) {
      var u := Firsts(before)[i].0;
      assert u in Keys(Firsts(before));
      SourceStep(values, n, isIsbn, canonical, u);
    }
    if v !in Occurring(before) {
      SourcesKnown(values[..n], isIsbn, canonical, v);
      SourcesAppend(values, n, isIsbn, canonical, v);
      assert SourcesOf(values[..n + 1], isIsbn, canonical, v) == {NormalizeSource(values[n].source)};
      assert w == m + [Identifier("ISBN", v, MergeSources(values[n].source, values[n].source))];
    }
  }

  lemma SourceStep(values: seq<Identifier>, n: nat, isIsbn: string -> bool, canonical: string -> Option<string>, u: string)
    requires n < |values| && u in Occurring(Isbns(values[..n], isIsbn, canonical))
    ensures var before, after := SourcesOf(values[..n], isIsbn, canonical, u), SourcesOf(values[..n + 1], isIsbn, canonical, u);
      Joined(after) == if Isbn(values[n], isIsbn, canonical) == Some(u) then MergeSources(Joined(before), values[n].source) else Joined(before)
  {
    hide Occurring, SourcesOf;
    SourcesKnown(values[..n], isIsbn, canonical, u);
    SourcesAppend(values, n, isIsbn, canonical, u);
    JoinOneMore(SourcesOf(values[..n], isIsbn, canonical, u), values[n].source);
  }

  lemma MergedSkip(values: seq<Identifier>, n: nat, isIsbn: string -> bool, canonical: string -> Option<string>)
    requires n < |values| && Isbn(values[n], isIsbn, canonical).None?
    ensures Merged(values[..n + 1], isIsbn, canonical) == Merged(values[..n], isIsbn, canonical)
    ensures Occurring(Isbns(values[..n + 1], isIsbn, canonical)) == Occurring(Isbns(values[..n], isIsbn, canonical))
  {
    var m, w := Merged(values[..n], isIsbn, canonical), Merged(values[..n + 1], isIsbn, canonical);
    var before := Isbns(values[..n], isIsbn, canonical);
    IsbnsAppend(values, n, isIsbn, canonical);
    FirstsAppend(before, None);
    OccurringAppend(before, None);
    hide Firsts, Occurring, Isbns, SourcesOf;
    forall i | 0 <= i < |m| ensures w[i] == m[i] {
      SourcesAppend(values, n, isIsbn, canonical, Firsts(before)[i].0);
    }
  }

  lemma MergedValues(values: seq<Identifier>, isIsbn: string -> bool, canonical: string -> Option<string>)
    ensures var m := Merged(values, isIsbn, canonical);
      && DistinctValues(m)
      && forall i | 0 <= i < |m| :: m[i].scheme == "ISBN" && !m[i].source.Unknown?
  {
    FirstsKeys(Isbns(values, isIsbn, canonical));
    hide Firsts, Isbns, SourcesOf;
  }

  /** `index` says where each value stands in `out`. */
  predicate Indexes(index: map<string, nat>, out: seq<Identifier>) {
    forall v | v in index :: index[v] < |out| && out[index[v]].value == v
  }

  /** An occurrence of the ISBN `v`: join the source of its entry, or add one. */
  method MergeOne(out: seq<Identifier>, index: map<string, nat>, v: string, source: Source)
    returns (out': seq<Identifier>, index': map<string, nat>)
    requires Indexes(index, out) && DistinctValues(out)
    ensures Indexes(index', out') && index'.Keys == index.Keys + {v}
    ensures out' == if v in index then WithSource(out, v, source)
                    else out + [Identifier("ISBN", v, MergeSources(source, source))]
  {
    if v in index {
      var i := index[v];
      OneWithSource(out, i, source);
      return out[i := out[i].(source := MergeSources(out[i].source, source))], index;
    }
    index' := index[v := |out|];
    out' := out + [Identifier("ISBN", v, MergeSources(source, source))];
  }

  method MergeIdentifiers(values: seq<Identifier>, isIsbn: string -> bool, canonical: string -> Option<string>)
    returns (out: seq<Identifier>)
    ensures out == Merged(values, isIsbn, canonical)
  {
    out := [];
    var index: map<string, nat> := map[];
    for n := 0 to |values|
      invariant out == Merged(values[..n], isIsbn, canonical)
      invariant index.Keys == Occurring(Isbns(values[..n], isIsbn, canonical)) && Indexes(index, out)
    {
      hide Merged, Occurring, Isbns, WithSource, DistinctValues, Indexes;
      var item := values[n];
      if !isIsbn(item.scheme) {
        MergedSkip(values, n, isIsbn, canonical);
        continue;
      }
      var value := canonical(item.value);
      if value.None? {
        MergedSkip(values, n, isIsbn, canonical);
        continue;
      }
      MergedStep(values, n, isIsbn, canonical, value.value);
      MergedValues(values[..n], isIsbn, canonical);
      out, index := MergeOne(out, index, value.value, item.source);
    }
    assert values[..|values|] == values;
  }

  /** Item `i` is an ISBN with the canonical value `v`. */
  predicate Occurs(values: seq<Identifier>, isIsbn: string -> bool, canonical: string -> Option<string>, v: string, i: nat) {
    i < |values| && isIsbn(values[i].scheme) && canonical(values[i].value) == Some(v)
  }

  /** All sources of `v` are metadata, of whatever name, or all are the text, or both are known. */
  ghost predicate SourceIs(values: seq<Identifier>, isIsbn: string -> bool, canonical: string -> Option<string>, v: string, s: Source) {
    if forall i: nat | Occurs(values, isIsbn, canonical, v, i) :: values[i].source.Metadata? || values[i].source.Unknown?
    then s == Metadata
    else if forall i: nat | Occurs(values, isIsbn, canonical, v, i) :: values[i].source.Text? then s == Text
    else s == MetadataAndText
  }

  lemma JoinedIs(values: seq<Identifier>, isIsbn: string -> bool, canonical: string -> Option<string>, v: string, k: nat)
    requires Occurs(values, isIsbn, canonical, v, k)
    ensures SourceIs(values, isIsbn, canonical, v, Joined(SourcesOf(values, isIsbn, canonical, v)))
  {
    var sources := SourcesOf(values, isIsbn, canonical, v);
    forall i: nat | Occurs(values, isIsbn, canonical, v, i) ensures NormalizeSource(values[i].source) in sources {
    }
    forall s | s in sources ensures exists i: nat :: Occurs(values, isIsbn, canonical, v, i) && NormalizeSource(values[i].source) == s {
      var i :| 0 <= i < |values| && Isbn(values[i], isIsbn, canonical) == Some(v) && NormalizeSource(values[i].source) == s;
      assert Occurs(values, isIsbn, canonical, v, i);
    }
    assert NormalizeSource(values[k].source) in sources;
    hide SourcesOf, Occurs;
    if forall i: nat | Occurs(values, isIsbn, canonical, v, i) :: values[i].source.Metadata? || values[i].source.Unknown? {
      assert sources == {Metadata};
    } else if forall i: nat | Occurs(values, isIsbn, canonical, v, i) :: values[i].source.Text? {
      assert sources == {Text};
    }
  }

  /** Exactly the ISBNs that occur come out, each with the sources it was seen with. */
  lemma MergedExact(values: seq<Identifier>, isIsbn: string -> bool, canonical: string -> Option<string>, e: Identifier)
    ensures e in Merged(values, isIsbn, canonical)
       <==> e.scheme == "ISBN" && (exists i: nat :: Occurs(values, isIsbn, canonical, e.value, i))
            && SourceIs(values, isIsbn, canonical, e.value, e.source)
  {
    var items, v := Isbns(values, isIsbn, canonical), e.value;
    var kept := Firsts(items);
    FirstsKeys(items);
    assert forall i | 0 <= i < |items| ::
        (items[i].Some? && items[i].value.0 == v) <==> Occurs(values, isIsbn, canonical, v, i);
    assert v in Keys(kept) <==> exists i: nat :: Occurs(values, isIsbn, canonical, v, i);
    if i: nat :| Occurs(values, isIsbn, canonical, v, i) {
      JoinedIs(values, isIsbn, canonical, v, i);
    }
    hide Firsts, Isbns, SourcesOf, Occurs, Joined;
    var m := Merged(values, isIsbn, canonical);
    if v in Keys(kept) {
      var k :| 0 <= k < |kept| && kept[k].0 == v;
      assert m[k].value == v && m[k] in m;
      SourceIsUnique(values, isIsbn, canonical, v, m[k].source, e.source);
    }
    if e in m {
      var k :| 0 <= k < |m| && m[k] == e;
      assert kept[k].0 in Keys(kept);
    }
  }

  /** Identifiers come in the order in which their values occur first. */
  lemma MergedInOrder(values: seq<Identifier>, isIsbn: string -> bool, canonical: string -> Option<string>, a: nat, b: nat)
    returns (i: nat, j: nat)
    requires a < b < |Merged(values, isIsbn, canonical)|
    ensures var m := Merged(values, isIsbn, canonical);
      && i < j && Occurs(values, isIsbn, canonical, m[a].value, i) && Occurs(values, isIsbn, canonical, m[b].value, j)
      && forall k | 0 <= k < j :: !Occurs(values, isIsbn, canonical, m[b].value, k)
  {
    var items := Isbns(values, isIsbn, canonical);
    i, j := FirstsInOrder(items, a, b);
    assert forall k | 0 <= k < |items| :: (items[k].Some? <==> Isbn(values[k], isIsbn, canonical).Some?);
    hide Firsts, SourcesOf, Joined;
  }

  lemma SourceIsUnique(values: seq<Identifier>, isIsbn: string -> bool, canonical: string -> Option<string>, v: string, s: Source, t: Source)
    ensures SourceIs(values, isIsbn, canonical, v, s) && SourceIs(values, isIsbn, canonical, v, t) ==> s == t
  {
  }

  /** Which identifiers come out, sources included, does not depend on the order in which they were found. */
  lemma OrderDoesNotMatter(a: seq<Identifier>, b: seq<Identifier>, isIsbn: string -> bool, canonical: string -> Option<string>,
                           e: Identifier)
    requires forall x :: x in a <==> x in b
    ensures e in Merged(a, isIsbn, canonical) <==> e in Merged(b, isIsbn, canonical)
  {
    if e in Merged(a, isIsbn, canonical) {
      InMerged(a, b, isIsbn, canonical, e);
    }
    if e in Merged(b, isIsbn, canonical) {
      InMerged(b, a, isIsbn, canonical, e);
    }
  }

  lemma InMerged(a: seq<Identifier>, b: seq<Identifier>, isIsbn: string -> bool, canonical: string -> Option<string>,
                 e: Identifier)
    requires (forall x :: x in a <==> x in b) && e in Merged(a, isIsbn, canonical)
    ensures e in Merged(b, isIsbn, canonical)
  {
    FirstsKeys(Isbns(a, isIsbn, canonical));
    FirstsKeys(Isbns(b, isIsbn, canonical));
    var i :| 0 <= i < |Merged(a, isIsbn, canonical)| && Merged(a, isIsbn, canonical)[i] == e;
    var v := e.value;
    assert v in Keys(Firsts(Isbns(a, isIsbn, canonical)));
    assert SourcesOf(a, isIsbn, canonical, v) == SourcesOf(b, isIsbn, canonical, v) by {
      SameSources(a, b, isIsbn, canonical, v);
      SameSources(b, a, isIsbn, canonical, v);
    }
    SourcesKnown(a, isIsbn, canonical, v);
    SourcesKnown(b, isIsbn, canonical, v);
    assert v in Keys(Firsts(Isbns(b, isIsbn, canonical)));
    var j :| 0 <= j < |Firsts(Isbns(b, isIsbn, canonical))| && Firsts(Isbns(b, isIsbn, canonical))[j].0 == v;
    assert Merged(b, isIsbn, canonical)[j] == e;
  }

  lemma SameSources(a: seq<Identifier>, b: seq<Identifier>, isIsbn: string -> bool, canonical: string -> Option<string>, v: string)
    requires forall x | x in a :: x in b
    ensures SourcesOf(a, isIsbn, canonical, v) <= SourcesOf(b, isIsbn, canonical, v)
  {
    forall s | s in SourcesOf(a, isIsbn, canonical, v) ensures s in SourcesOf(b, isIsbn, canonical, v) {
      var i :| 0 <= i < |a| && Isbn(a[i], isIsbn, canonical) == Some(v) && s == NormalizeSource(a[i].source);
      assert a[i] in b;
      var j :| 0 <= j < |b| && b[j] == a[i];
    }
  }
}
