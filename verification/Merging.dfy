/**
 * The merges of per-file metadata into book metadata (internal/report/book_metadata.go:109-237). Text normalization,
 * folding, language tags, dates and ISBNs are parameters.
 */
module Merging {
  import opened Base

  // ---- the first item of each key -------------------------------------------------------------------------

  type Item<K, V> = Option<(K, V)>

  predicate SameKey<K(==), V>(a: Item<K, V>, b: Item<K, V>) {
    a.Some? && b.Some? && a.value.0 == b.value.0
  }

  /** Nothing with the key of item `j` comes before it. */
  predicate IsFirst<K(==), V>(items: seq<Item<K, V>>, j: nat)
    requires j < |items|
  {
    items[j].Some? && forall i | 0 <= i < j :: !SameKey(items[i], items[j])
  }

  /** The items of `items` that are the first of their key, in order. */
  function Firsts<K(==), V>(items: seq<Item<K, V>>): (r: seq<(K, V)>)
    ensures |r| <= |items|
  {
    if items == [] then []
    else
      var n := |items| - 1;
      Firsts(items[..n]) + if IsFirst(items, n) then [items[n].value] else []
  }

  function Keys<K(==), V>(r: seq<(K, V)>): set<K> {
    set i | 0 <= i < |r| :: r[i].0
  }

  function Values<K, V>(r: seq<(K, V)>): (vs: seq<V>)
    ensures |vs| == |r|
  {
    seq(|r|, i requires 0 <= i < |r| => r[i].1)
  }

  function Occurring<K(==), V>(items: seq<Item<K, V>>): set<K> {
    set j | 0 <= j < |items| && items[j].Some? :: items[j].value.0
  }

  predicate DistinctKeys<K(==), V>(r: seq<(K, V)>) {
    forall i, j | 0 <= i < j < |r| :: r[i].0 != r[j].0
  }

  lemma KeysAppend<K, V>(r: seq<(K, V)>, e: (K, V))
    ensures Keys(r + [e]) == Keys(r) + {e.0}
  {
    var all := r + [e];
    assert all[|r|] == e;
    assert forall i | 0 <= i < |r| :: all[i] == r[i];
  }

  lemma OccurringAppend<K, V>(items: seq<Item<K, V>>, item: Item<K, V>)
    ensures Occurring(items + [item]) == Occurring(items) + if item.Some? then {item.value.0} else {}
  {
    var all := items + [item];
    assert all[|items|] == item;
    assert forall i | 0 <= i < |items| :: all[i] == items[i];
  }

  /** One more item is kept if its key is new. */
  lemma FirstsAppend<K, V>(items: seq<Item<K, V>>, item: Item<K, V>)
    ensures Firsts(items + [item])
         == Firsts(items) + if item.Some? && item.value.0 !in Occurring(items) then [item.value] else []
  {
    var all := items + [item];
    assert all[..|items|] == items;
    assert all[|items|] == item;
    assert forall i | 0 <= i < |items| :: all[i] == items[i];
  }

  /** Exactly the keys that occur are kept, each once. */
  lemma {:induction false} FirstsKeys<K, V>(items: seq<Item<K, V>>)
    ensures DistinctKeys(Firsts(items)) && Keys(Firsts(items)) == Occurring(items)
    decreases |items|
  {
    if items == [] {
    } else {
      var init, last := items[..|items| - 1], items[|items| - 1];
      assert items == init + [last];
      FirstsKeys(init);
      FirstsAppend(init, last);
      OccurringAppend(init, last);
      hide Occurring, Firsts;
      if last.Some? && last.value.0 !in Occurring(init) {
        KeysAppend(Firsts(init), last.value);
        forall i | 0 <= i < |Firsts(init)| ensures Firsts(init)[i].0 != last.value.0 {
          assert Firsts(init)[i].0 in Keys(Firsts(init));
        }
      } else {
        assert Firsts(items) == Firsts(init);
      }
    }
  }

  /** Item `j` is the first of its key, and it is `e`. */
  ghost predicate FirstAt<K, V>(items: seq<Item<K, V>>, j: nat, e: (K, V)) {
    j < |items| && items[j] == Some(e) && IsFirst(items, j)
  }

  lemma FirstAtPrefix<K, V>(items: seq<Item<K, V>>, n: nat, j: nat, e: (K, V))
    requires j < n <= |items|
    ensures FirstAt(items[..n], j, e) <==> FirstAt(items, j, e)
  {
    assert forall i | 0 <= i < n :: items[..n][i] == items[i];
  }

  /** An item is kept exactly if nothing before it has its key. */
  lemma {:induction false} FirstsExact<K, V>(items: seq<Item<K, V>>, e: (K, V))
    ensures e in Firsts(items) <==> exists j: nat :: FirstAt(items, j, e)
    decreases |items|
  {
    if items == [] {
    } else {
      var n := |items| - 1;
      FirstsExact(items[..n], e);
      forall j: nat | j < n ensures FirstAt(items[..n], j, e) <==> FirstAt(items, j, e) {
        FirstAtPrefix(items, n, j, e);
      }
      assert FirstAt(items, n, e) <==> items[n] == Some(e) && IsFirst(items, n);
      assert forall j: nat | FirstAt(items, j, e) :: j < n || j == n;
      assert forall j: nat | FirstAt(items[..n], j, e) :: j < n;
      hide FirstAt, IsFirst;
    }
  }

  /** The items kept come in the order of the items. */
  lemma {:induction false} FirstsInOrder<K, V>(items: seq<Item<K, V>>, a: nat, b: nat) returns (i: nat, j: nat)
    requires a < b < |Firsts(items)|
    ensures i < j && FirstAt(items, i, Firsts(items)[a]) && FirstAt(items, j, Firsts(items)[b])
    decreases |items|
  {
    var n := |items| - 1;
    var init := items[..n];
    if b < |Firsts(init)| {
      i, j := FirstsInOrder(init, a, b);
      FirstAtPrefix(items, n, i, Firsts(items)[a]);
      FirstAtPrefix(items, n, j, Firsts(items)[b]);
    } else {
      assert Firsts(init)[a] in Firsts(init);
      FirstsExact(init, Firsts(init)[a]);
      i :| FirstAt(init, i, Firsts(init)[a]);
      FirstAtPrefix(items, n, i, Firsts(items)[a]);
      j := n;
    }
  }

  // ---- subjects and languages -----------------------------------------------------------------------------

  function Subject(value: string, normalize: string -> string, fold: string -> string): Item<string, string> {
    var v := normalize(value);
    if v == "" then None else Some((fold(v), v))
  }

  function Language(value: string, tag: string -> Option<string>): Item<string, string> {
    match tag(value)
    case None => None
    case Some(t) => Some((t, t))
  }

  /** What is made of each value. */
  function Each<T, K, V>(values: seq<T>, item: T -> Item<K, V>): (items: seq<Item<K, V>>)
    ensures |items| == |values|
  {
    seq(|values|, i requires 0 <= i < |values| => item(values[i]))
  }

  lemma EachAppend<T, K, V>(values: seq<T>, n: nat, item: T -> Item<K, V>)
    requires n < |values|
    ensures Each(values[..n + 1], item) == Each(values[..n], item) + [item(values[n])]
  {
  }

  /** What one more value adds to the values kept and the keys seen. */
  lemma KeptStep<T, K, V>(values: seq<T>, n: nat, item: T -> Item<K, V>)
    requires n < |values|
    ensures var next, before, after := item(values[n]), Each(values[..n], item), Each(values[..n + 1], item);
      if next.Some? && next.value.0 !in Occurring(before)
      then Values(Firsts(after)) == Values(Firsts(before)) + [next.value.1] && Occurring(after) == Occurring(before) + {next.value.0}
      else Values(Firsts(after)) == Values(Firsts(before)) && Occurring(after) == Occurring(before)
  {
    EachAppend(values, n, item);
    FirstsAppend(Each(values[..n], item), item(values[n]));
    OccurringAppend(Each(values[..n], item), item(values[n]));
    hide Firsts, Occurring, Each;
  }

  function MergedSubjects(values: seq<string>, normalize: string -> string, fold: string -> string): seq<string> {
    Values(Firsts(Each(values, v => Subject(v, normalize, fold))))
  }

  function MergedLanguages(values: seq<string>, tag: string -> Option<string>): seq<string> {
    Values(Firsts(Each(values, v => Language(v, tag))))
  }

  method MergeSubjects(values: seq<string>, normalize: string -> string, fold: string -> string) returns (out: seq<string>)
    ensures out == MergedSubjects(values, normalize, fold)
  {
    out := [];
    var seen: set<string> := {};
    ghost var item := v => Subject(v, normalize, fold);
    for i := 0 to |values|
      invariant out == Values(Firsts(Each(values[..i], item)))
      invariant seen == Occurring(Each(values[..i], item))
    {
      hide Firsts, Occurring, Values, Each;
      KeptStep(values, i, item);
      var value := normalize(values[i]);
      if value == "" {
        continue;
      }
      var key := fold(value);
      if key in seen {
        continue;
      }
      seen := seen + {key};
      out := out + [value];
    }
    assert values[..|values|] == values;
  }

  method MergeLanguages(values: seq<string>, tag: string -> Option<string>) returns (out: seq<string>)
    ensures out == MergedLanguages(values, tag)
  {
    out := [];
    var seen: set<string> := {};
    ghost var item := v => Language(v, tag);
    for i := 0 to |values|
      invariant out == Values(Firsts(Each(values[..i], item)))
      invariant seen == Occurring(Each(values[..i], item))
    {
      hide Firsts, Occurring, Values, Each;
      KeptStep(values, i, item);
      var parsed := tag(values[i]);
      if parsed.None? {
        continue;
      }
      if parsed.value in seen {
        continue;
      }
      seen := seen + {parsed.value};
      out := out + [parsed.value];
    }
    assert values[..|values|] == values;
  }

  predicate Distinct<T(==)>(s: seq<T>) {
    forall i, j | 0 <= i < j < |s| :: s[i] != s[j]
  }

  /** Every kept item is one of the items. */
  lemma {:induction false} FirstsAreItems<K, V>(items: seq<Item<K, V>>, i: nat)
    requires i < |Firsts(items)|
    ensures Some(Firsts(items)[i]) in items
    decreases |items|
  {
    var n := |items| - 1;
    if i < |Firsts(items[..n])| {
      FirstsAreItems(items[..n], i);
    }
  }

  /** When the value decides the key, distinct keys are distinct values. */
  lemma ValuesDistinct<K, V>(items: seq<Item<K, V>>, key: V -> K)
    requires forall item | item in items && item.Some? :: item.value.0 == key(item.value.1)
    ensures Distinct(Values(Firsts(items)))
  {
    FirstsKeys(items);
    forall i | 0 <= i < |Firsts(items)| ensures Firsts(items)[i].0 == key(Firsts(items)[i].1) {
      FirstsAreItems(items, i);
    }
    hide Firsts;
  }

  lemma InValues<K, V>(r: seq<(K, V)>, v: V)
    ensures v in Values(r) <==> exists e :: e in r && e.1 == v
  {
    if v in Values(r) {
      var i :| 0 <= i < |r| && Values(r)[i] == v;
      assert r[i] in r;
    }
    if e :| e in r && e.1 == v {
      var i :| 0 <= i < |r| && r[i] == e;
      assert Values(r)[i] == v;
    }
  }

  /** The first value of its key that is not blank. */
  ghost predicate FirstSubject(values: seq<string>, normalize: string -> string, fold: string -> string, s: string, j: nat) {
    && j < |values| && normalize(values[j]) == s != ""
    && forall i | 0 <= i < j :: normalize(values[i]) == "" || fold(normalize(values[i])) != fold(s)
  }

  lemma FirstSubjectIs(values: seq<string>, normalize: string -> string, fold: string -> string, k: string, s: string, j: nat)
    ensures FirstAt(Each(values, v => Subject(v, normalize, fold)), j, (k, s))
       <==> FirstSubject(values, normalize, fold, s, j) && k == fold(s)
  {
    var items := Each(values, v => Subject(v, normalize, fold));
    if j < |values| {
      assert items[j] == Subject(values[j], normalize, fold);
      assert forall i | 0 <= i < j :: items[i] == Subject(values[i], normalize, fold);
      hide Each;
    }
  }

  /** A subject is listed as its first file spells it, and blank ones are not listed. */
  lemma SubjectsExact(values: seq<string>, normalize: string -> string, fold: string -> string, s: string)
    ensures s in MergedSubjects(values, normalize, fold) <==> exists j: nat :: FirstSubject(values, normalize, fold, s, j)
  {
    var items := Each(values, v => Subject(v, normalize, fold));
    hide Firsts, Values, Each, FirstAt, FirstSubject;
    InValues(Firsts(items), s);
    forall e: (string, string) | e.1 == s
      ensures e in Firsts(items) <==> e.0 == fold(s) && exists j: nat :: FirstSubject(values, normalize, fold, s, j)
    {
      FirstsExact(items, e);
      forall j: nat ensures FirstAt(items, j, e) <==> FirstSubject(values, normalize, fold, s, j) && e.0 == fold(s) {
        FirstSubjectIs(values, normalize, fold, e.0, s, j);
        assert e == (e.0, s);
      }
    }
    assert (fold(s), s).1 == s;
  }

  /** Subjects come in the order of the files that spell them first. */
  lemma SubjectsInOrder(values: seq<string>, normalize: string -> string, fold: string -> string, a: nat, b: nat)
    returns (i: nat, j: nat)
    requires a < b < |MergedSubjects(values, normalize, fold)|
    ensures var out := MergedSubjects(values, normalize, fold);
      i < j && FirstSubject(values, normalize, fold, out[a], i) && FirstSubject(values, normalize, fold, out[b], j)
  {
    var items := Each(values, v => Subject(v, normalize, fold));
    hide Firsts, FirstAt, FirstSubject, Each;
    i, j := FirstsInOrder(items, a, b);
    var x, y := Firsts(items)[a], Firsts(items)[b];
    FirstSubjectIs(values, normalize, fold, x.0, x.1, i);
    FirstSubjectIs(values, normalize, fold, y.0, y.1, j);
    assert x == (x.0, x.1) && y == (y.0, y.1);
  }

  /** The first value with the language. */
  predicate FirstLanguage(values: seq<string>, tag: string -> Option<string>, t: string, j: nat) {
    j < |values| && tag(values[j]) == Some(t) && forall i | 0 <= i < j :: tag(values[i]) != Some(t)
  }

  /** Languages come in the order in which they occur first. */
  lemma LanguagesInOrder(values: seq<string>, tag: string -> Option<string>, a: nat, b: nat) returns (i: nat, j: nat)
    requires a < b < |MergedLanguages(values, tag)|
    ensures var out := MergedLanguages(values, tag); i < j && FirstLanguage(values, tag, out[a], i) && FirstLanguage(values, tag, out[b], j)
  {
    var items := Each(values, v => Language(v, tag));
    i, j := FirstsInOrder(items, a, b);
    assert forall k | 0 <= k < |items| :: items[k] == Language(values[k], tag);
    hide Firsts, Each;
  }

  /** Exactly the valid languages are listed. */
  lemma LanguagesExact(values: seq<string>, tag: string -> Option<string>, t: string)
    ensures t in MergedLanguages(values, tag) <==> exists j :: 0 <= j < |values| && tag(values[j]) == Some(t)
  {
    var items := Each(values, v => Language(v, tag));
    InValues(Firsts(items), t);
    FirstsKeys(items);
    forall e | e in Firsts(items) ensures e.0 == e.1 && Some(e) in items {
      var i :| 0 <= i < |Firsts(items)| && Firsts(items)[i] == e;
      FirstsAreItems(items, i);
    }
    hide Firsts;
    if t in MergedLanguages(values, tag) {
      var e :| e in Firsts(items) && e.1 == t;
      var j :| 0 <= j < |items| && items[j] == Some(e);
      assert tag(values[j]) == Some(t);
    }
    if j :| 0 <= j < |values| && tag(values[j]) == Some(t) {
      assert items[j] == Some((t, t)) && t in Occurring(items);
      var i :| 0 <= i < |Firsts(items)| && Firsts(items)[i].0 == t;
      assert Firsts(items)[i] in Firsts(items);
    }
  }

  /** No subject and no language is listed twice, not even in another spelling. */
  lemma MergesDistinct(subjects: seq<string>, languages: seq<string>, normalize: string -> string, fold: string -> string,
                       tag: string -> Option<string>)
    ensures Distinct(MergedSubjects(subjects, normalize, fold)) && Distinct(MergedLanguages(languages, tag))
    ensures var out := MergedSubjects(subjects, normalize, fold);
      forall i, j | 0 <= i < j < |out| :: fold(out[i]) != fold(out[j])
  {
    var items := Each(subjects, v => Subject(v, normalize, fold));
    ValuesDistinct(items, fold);
    ValuesDistinct(Each(languages, v => Language(v, tag)), t => t);
    FirstsKeys(items);
    forall i | 0 <= i < |Firsts(items)| ensures Firsts(items)[i].0 == fold(Firsts(items)[i].1) {
      FirstsAreItems(items, i);
    }
    hide Firsts;
  }
}
