/** Voting on a book's author list (internal/report/bookmeta.go:1014-1098). */
module Authors {
  import opened Base
  import opened Lexicographic
  import opened Merging

  const SEPARATOR: char := '\U{1F}'

  // ---- sorting --------------------------------------------------------------------------------------------

  predicate IsSorted(s: seq<string>) {
    forall i, j | 0 <= i < j < |s| :: !Less(s[j], s[i])
  }

  /** `sortStrings`: insertion sort in place. */
  method SortStrings(s: array<string>)
    modifies s
    ensures IsSorted(s[..]) && multiset(s[..]) == multiset(old(s[..]))
  {
    if s.Length == 0 {
      return;
    }
    var i := 1;
    while i < s.Length
      invariant 1 <= i <= s.Length
      invariant IsSorted(s[..i]) && multiset(s[..]) == multiset(old(s[..]))
    {
      SiftDown(s, i);
      i := i + 1;
    }
    assert s[..s.Length] == s[..];
  }

  /** Sorted but for the element at `j`, which is not greater than those after it. */
  ghost predicate SortedAround(s: seq<string>, j: nat) {
    && (forall a, b | 0 <= a < b < |s| && a != j && b != j :: !Less(s[b], s[a]))
    && (forall b | j < b < |s| && j < |s| :: !Less(s[b], s[j]))
  }

  /** The inner loop: the element at `i` sinks to its place among those before it. */
  method SiftDown(s: array<string>, i: nat)
    requires i < s.Length && IsSorted(s[..i])
    modifies s
    ensures IsSorted(s[..i + 1]) && multiset(s[..]) == multiset(old(s[..]))
  {
    hide *;
    var j := i;
    StartAround(s[..i + 1], i);
    assert s[..i + 1][..i] == s[..i];
    while j > 0 && Less(s[j], s[j - 1])
      invariant 0 <= j <= i
      invariant SortedAround(s[..i + 1], j)
      invariant multiset(s[..]) == multiset(old(s[..]))
    {
      SwapDown(s[..i + 1], j);
      SwapWithPrevious(s, j, i + 1);
      j := j - 1;
    }
    InPlace(s[..i + 1], j);
  }

  function Swapped(s: seq<string>, j: nat): seq<string>
    requires 0 < j < |s|
  {
    s[j := s[j - 1]][j - 1 := s[j]]
  }

  method SwapWithPrevious(s: array<string>, j: nat, ghost n: nat)
    requires 0 < j < n <= s.Length
    modifies s
    ensures s[..n] == Swapped(old(s[..n]), j) && multiset(s[..]) == multiset(old(s[..]))
  {
    s[j], s[j - 1] := s[j - 1], s[j];
  }

  lemma StartAround(s: seq<string>, i: nat)
    requires |s| == i + 1
    ensures IsSorted(s[..i]) ==> SortedAround(s, i)
  {
    assert forall a | 0 <= a < i :: s[..i][a] == s[a];
  }

  lemma SwapDown(s: seq<string>, j: nat)
    requires 0 < j < |s| && SortedAround(s, j) && Less(s[j], s[j - 1])
    ensures SortedAround(Swapped(s, j), j - 1)
  {
    LessIsStrict(s[j], s[j - 1]);
  }

  lemma InPlace(s: seq<string>, j: nat)
    requires j < |s| && SortedAround(s, j) && (j > 0 ==> !Less(s[j], s[j - 1]))
    ensures IsSorted(s)
  {
    forall a | 0 <= a < j ensures !Less(s[j], s[a]) {
      if a < j - 1 && Less(s[j], s[a]) {
        LessOrGreater(s[a], s[j - 1]);
        if s[a] != s[j - 1] {
          LessTransitive(s[j], s[a], s[j - 1]);
        }
      }
    }
  }

  /** Where `x` belongs in a sorted sequence. */
  function Insert(s: seq<string>, x: string): (r: seq<string>)
    requires IsSorted(s)
    ensures IsSorted(r) && multiset(r) == multiset(s) + multiset{x}
  {
    if s == [] || !Less(x, s[|s| - 1]) then
      AppendGreatest(s, x);
      s + [x]
    else
      var init, last := s[..|s| - 1], s[|s| - 1];
      assert s == init + [last];
      AppendLast(Insert(init, x), init, x, last);
      Insert(init, x) + [last]
  }

  lemma AppendGreatest(s: seq<string>, x: string)
    requires IsSorted(s) && (s == [] || !Less(x, s[|s| - 1]))
    ensures IsSorted(s + [x])
  {
    if s != [] {
      LessIrreflexive(x);
      InPlace(s + [x], |s|);
    }
  }

  lemma LessIrreflexive(x: string)
    ensures !Less(x, x)
  {
    if Less(x, x) {
      LessIsStrict(x, x);
    }
  }

  lemma AppendLast(r: seq<string>, init: seq<string>, x: string, last: string)
    requires IsSorted(r) && multiset(r) == multiset(init) + multiset{x}
    requires IsSorted(init + [last]) && Less(x, last)
    ensures IsSorted(r + [last])
  {
    LessIsStrict(x, last);
    var s := init + [last];
    forall i | 0 <= i < |r| ensures !Less(last, r[i]) {
      assert r[i] in multiset(r);
      if r[i] != x {
        assert r[i] in multiset(init);
        var j :| 0 <= j < |init| && init[j] == r[i];
        assert s[j] == r[i] && s[|init|] == last;
      }
    }
  }

  function Sorted(s: seq<string>): (r: seq<string>)
    ensures IsSorted(r) && multiset(r) == multiset(s)
  {
    if s == [] then []
    else
      assert s == s[..|s| - 1] + [s[|s| - 1]];
      Insert(Sorted(s[..|s| - 1]), s[|s| - 1])
  }

  /** A multiset of strings has one sorted listing. */
  lemma {:induction false} SortedIsUnique(s: seq<string>, t: seq<string>)
    requires IsSorted(s) && IsSorted(t) && multiset(s) == multiset(t)
    ensures s == t
    decreases |s|
  {
    assert |s| == |multiset(s)| == |multiset(t)| == |t|;
    if s != [] {
      LeastFirst(s, t);
      assert s == [s[0]] + s[1..] && t == [t[0]] + t[1..];
      assert multiset(s[1..]) == multiset(s) - multiset{s[0]};
      assert multiset(t[1..]) == multiset(t) - multiset{t[0]};
      SortedIsUnique(s[1..], t[1..]);
    }
  }

  lemma LeastFirst(s: seq<string>, t: seq<string>)
    requires IsSorted(s) && IsSorted(t) && multiset(s) == multiset(t) && s != [] && t != []
    ensures s[0] == t[0]
  {
    assert s[0] in multiset(t) && t[0] in multiset(s);
    var i :| 0 <= i < |t| && t[i] == s[0];
    var j :| 0 <= j < |s| && s[j] == t[0];
    LessOrGreater(s[0], t[0]);
  }

  // ---- the vote key ---------------------------------------------------------------------------------------

  /** `strings.Join` with the separator. */
  function Join(names: seq<string>): string {
    if |names| == 0 then "" else if |names| == 1 then names[0] else names[0] + [SEPARATOR] + Join(names[1..])
  }

  predicate SeparatorFree(names: seq<string>) {
    forall i | 0 <= i < |names| :: SEPARATOR !in names[i]
  }

  lemma SamePrefix(a: string, b: string, x: string, y: string)
    requires SEPARATOR !in a && SEPARATOR !in b
    requires a + [SEPARATOR] + x == b + [SEPARATOR] + y
    ensures a == b && x == y
  {
    var s, t := a + [SEPARATOR] + x, b + [SEPARATOR] + y;
    assert s[|a|] == SEPARATOR && t[|b|] == SEPARATOR;
    assert forall k | 0 <= k < |b| :: t[k] == b[k] != SEPARATOR;
    assert forall k | 0 <= k < |a| :: s[k] == a[k] != SEPARATOR;
    assert a == s[..|a|] && b == t[..|b|] && x == s[|a| + 1..] && y == t[|b| + 1..];
  }

  lemma JoinMarks(a: seq<string>)
    requires a != [] && SeparatorFree(a)
    ensures SEPARATOR in Join(a) <==> |a| > 1
  {
    if |a| > 1 {
      assert Join(a)[|a[0]|] == SEPARATOR;
    }
  }

  /** No two lists of separator-free names join to the same text. */
  lemma {:induction false} JoinInjective(a: seq<string>, b: seq<string>)
    requires a != [] && b != [] && SeparatorFree(a) && SeparatorFree(b) && Join(a) == Join(b)
    ensures a == b
    decreases |a|
  {
    JoinMarks(a);
    JoinMarks(b);
    if |a| > 1 {
      SamePrefix(a[0], b[0], Join(a[1..]), Join(b[1..]));
      JoinInjective(a[1..], b[1..]);
      assert a == [a[0]] + a[1..] && b == [b[0]] + b[1..];
    }
  }

  /** The text functions: whitespace normalization and the placeholder test. */
  datatype Text = Text(normalize: string -> string, placeholder: string -> bool)

  /** "Last, First" as "First Last", flipped around the first comma. */
  function Canonical(name: string, text: Text): string {
    match FirstComma(name)
    case None => name
    case Some(i) =>
      var flipped := text.normalize(name[i + 1..] + " " + name[..i]);
      if flipped != "" then flipped else name
  }

  function FirstComma(s: string): (r: Option<nat>)
    ensures r.Some? ==> r.value < |s| && s[r.value] == ','
  {
    if s == "" then None
    else if s[0] == ',' then Some(0)
    else match FirstComma(s[1..]) case None => None case Some(i) => Some(i + 1)
  }

  function Canonicals(names: seq<string>, text: Text): (r: seq<string>)
    ensures |r| == |names|
  {
    seq(|names|, i requires 0 <= i < |names| => Canonical(names[i], text))
  }

  /** The vote key of a list: the sorted canonical names, joined. */
  function Key(names: seq<string>, text: Text): string {
    Join(Sorted(Canonicals(names, text)))
  }

  method VoteKey(names: seq<string>, text: Text) returns (key: string)
    ensures key == Key(names, text)
  {
    var sorted := new string[|names|](_ => "");
    for i := 0 to |names|
      invariant sorted[..i] == Canonicals(names, text)[..i]
    {
      sorted[i] := Canonical(names[i], text);
    }
    assert sorted[..] == Canonicals(names, text);
    SortStrings(sorted);
    SortedIsUnique(sorted[..], Sorted(Canonicals(names, text)));
    return Join(sorted[..]);
  }

  lemma SameElements(s: seq<string>, t: seq<string>)
    requires multiset(s) == multiset(t) && SeparatorFree(s)
    ensures SeparatorFree(t) && |s| == |t|
  {
    assert |s| == |multiset(s)| == |multiset(t)| == |t|;
    forall i | 0 <= i < |t| ensures SEPARATOR !in t[i] {
      assert t[i] in multiset(t) && t[i] in multiset(s);
      var j :| 0 <= j < |s| && s[j] == t[i];
    }
  }

  /** Two lists vote together exactly when their canonical names are the same, each as often, in whatever order. */
  lemma KeyIsMultiset(a: seq<string>, b: seq<string>, text: Text)
    requires a != [] && b != []
    requires SeparatorFree(Canonicals(a, text)) && SeparatorFree(Canonicals(b, text))
    ensures Key(a, text) == Key(b, text) <==> multiset(Canonicals(a, text)) == multiset(Canonicals(b, text))
  {
    var s, t := Sorted(Canonicals(a, text)), Sorted(Canonicals(b, text));
    SameElements(Canonicals(a, text), s);
    SameElements(Canonicals(b, text), t);
    hide IsSorted, Join, Canonicals, SeparatorFree, Sorted;
    if Key(a, text) == Key(b, text) {
      JoinInjective(s, t);
    }
    if multiset(Canonicals(a, text)) == multiset(Canonicals(b, text)) {
      SortedIsUnique(s, t);
    }
  }

  // ---- the vote -------------------------------------------------------------------------------------------

  /** The names of a candidate list that count: normalized, not empty and no placeholder. */
  function Kept(names: seq<string>, text: Text): (r: seq<string>)
    ensures |r| <= |names|
  {
    if names == [] then []
    else
      var name := text.normalize(names[|names| - 1]);
      Kept(names[..|names| - 1], text) + if name != "" && !text.placeholder(name) then [name] else []
  }

  /** A list, and the place of the candidate it comes from. */
  datatype Entry = Entry(names: seq<string>, first: nat)

  /** A candidate with names counts for its key. */
  function Ballot(names: seq<string>, i: nat, text: Text): Item<string, Entry> {
    var kept := Kept(names, text);
    if kept == [] then None else Some((Key(kept, text), Entry(kept, i)))
  }

  function Ballots(candidates: seq<seq<string>>, text: Text): (r: seq<Item<string, Entry>>)
    ensures |r| == |candidates|
  {
    seq(|candidates|, i requires 0 <= i < |candidates| => Ballot(candidates[i], i, text))
  }

  function VotesFor(ballots: seq<Item<string, Entry>>, key: string): nat {
    if ballots == [] then 0
    else
      var last := ballots[|ballots| - 1];
      VotesFor(ballots[..|ballots| - 1], key) + if last.Some? && last.value.0 == key then 1 else 0
  }

  function Runes(names: seq<string>): nat {
    if names == [] then 0 else Runes(names[..|names| - 1]) + |names[|names| - 1]|
  }

  function Spaced(names: seq<string>): nat {
    if names == [] then 0 else Spaced(names[..|names| - 1]) + if ' ' in names[|names| - 1] then 1 else 0
  }

  /** What lists are compared by. */
  datatype Rank = Rank(count: nat, authors: nat, runes: nat, spaced: nat, first: nat)

  function RankOf(e: Entry, count: nat): Rank {
    Rank(count, |e.names|, Runes(e.names), Spaced(e.names), e.first)
  }

  /** More votes, then more authors, more characters, more names with a space, and the earlier list. */
  predicate Beats(a: Rank, b: Rank) {
    || a.count > b.count
    || (a.count == b.count && a.authors > b.authors)
    || (a.count == b.count && a.authors == b.authors && a.runes > b.runes)
    || (a.count == b.count && a.authors == b.authors && a.runes == b.runes && a.spaced > b.spaced)
    || (a.count == b.count && a.authors == b.authors && a.runes == b.runes && a.spaced == b.spaced && a.first < b.first)
  }

  lemma BeatsIsTotal(a: Rank, b: Rank, c: Rank)
    ensures a.first != b.first ==> (Beats(a, b) <==> !Beats(b, a))
    ensures Beats(a, b) && Beats(b, c) ==> Beats(a, c)
  {
  }

  /** The lists that got votes: the first of each key, in order. */
  function Lists(ballots: seq<Item<string, Entry>>): seq<(string, Entry)> {
    Firsts(ballots)
  }

  function RankAt(ballots: seq<Item<string, Entry>>, i: nat): Rank
    requires i < |Lists(ballots)|
  {
    RankOf(Lists(ballots)[i].1, VotesFor(ballots, Lists(ballots)[i].0))
  }

  /** List `w` beats every other list. */
  ghost predicate IsWinner(ballots: seq<Item<string, Entry>>, w: nat) {
    w < |Lists(ballots)| && forall v | 0 <= v < |Lists(ballots)| && v != w :: Beats(RankAt(ballots, w), RankAt(ballots, v))
  }

  // ---- the code -------------------------------------------------------------------------------------------

  datatype Vote = Vote(names: seq<string>, count: nat, first: nat)

  /** The first loop's variables after these ballots. */
  ghost predicate Counted(votes: map<string, Vote>, order: seq<string>, ballots: seq<Item<string, Entry>>) {
    && votes.Keys == Occurring(ballots)
    && |order| == |Lists(ballots)|
    && (forall i | 0 <= i < |order| ::
          order[i] == Lists(ballots)[i].0 && order[i] in votes
          && votes[order[i]].names == Lists(ballots)[i].1.names && votes[order[i]].first == Lists(ballots)[i].1.first)
    && (forall k | k in votes :: votes[k].count == VotesFor(ballots, k))
  }

  lemma VotesAppend(ballots: seq<Item<string, Entry>>, b: Item<string, Entry>, k: string)
    ensures VotesFor(ballots + [b], k) == VotesFor(ballots, k) + if b.Some? && b.value.0 == k then 1 else 0
  {
    assert (ballots + [b])[..|ballots|] == ballots;
  }

  lemma {:induction false} NoVotes(ballots: seq<Item<string, Entry>>, k: string)
    requires k !in Occurring(ballots)
    ensures VotesFor(ballots, k) == 0
    decreases |ballots|
  {
    if ballots != [] {
      var n := |ballots| - 1;
      assert ballots == ballots[..n] + [ballots[n]];
      OccurringAppend(ballots[..n], ballots[n]);
      NoVotes(ballots[..n], k);
    }
  }

  method CountVote(votes: map<string, Vote>, order: seq<string>, ghost ballots: seq<Item<string, Entry>>, key: string, e: Entry)
    returns (votes': map<string, Vote>, order': seq<string>)
    requires Counted(votes, order, ballots)
    ensures Counted(votes', order', ballots + [Some((key, e))])
  {
    FirstsAppend(ballots, Some((key, e)));
    OccurringAppend(ballots, Some((key, e)));
    FirstsKeys(ballots);
    ghost var all := ballots + [Some((key, e))];
    forall k ensures VotesFor(all, k) == VotesFor(ballots, k) + if k == key then 1 else 0 {
      VotesAppend(ballots, Some((key, e)), k);
    }
    if key !in votes {
      NoVotes(ballots, key);
    }
    hide Firsts, Occurring, VotesFor;
    votes', order' := votes, order;
    if key !in votes' {
      votes' := votes'[key := Vote(e.names, 0, e.first)];
      order' := order' + [key];
    }
    var v := votes'[key];
    votes' := votes'[key := v.(count := v.count + 1)];
  }

  method KeepNames(names: seq<string>, text: Text) returns (kept: seq<string>)
    ensures kept == Kept(names, text)
  {
    kept := [];
    for i := 0 to |names|
      invariant kept == Kept(names[..i], text)
    {
      assert names[..i + 1][..i] == names[..i];
      var name := text.normalize(names[i]);
      if name != "" && !text.placeholder(name) {
        kept := kept + [name];
      }
    }
    assert names[..|names|] == names;
  }

  lemma BallotsPrefix(candidates: seq<seq<string>>, text: Text, n: nat)
    requires n < |candidates|
    ensures Ballots(candidates, text)[..n + 1] == Ballots(candidates, text)[..n] + [Ballot(candidates[n], n, text)]
  {
    hide Ballot;
  }

  lemma SkipBallot(votes: map<string, Vote>, order: seq<string>, ballots: seq<Item<string, Entry>>)
    requires Counted(votes, order, ballots)
    ensures Counted(votes, order, ballots + [None])
  {
    FirstsAppend(ballots, None);
    OccurringAppend(ballots, None);
    forall k ensures VotesFor(ballots + [None], k) == VotesFor(ballots, k) {
      VotesAppend(ballots, None, k);
    }
    hide Firsts, Occurring, VotesFor;
    assert Lists(ballots + [None]) == Lists(ballots);
  }

  /** Lists come in the order of their candidates. */
  lemma {:induction false} ListsIncrease(ballots: seq<Item<string, Entry>>)
    requires forall i | 0 <= i < |ballots| && ballots[i].Some? :: ballots[i].value.1.first == i
    ensures forall i | 0 <= i < |Lists(ballots)| :: Lists(ballots)[i].1.first < |ballots|
    ensures forall i, j | 0 <= i < j < |Lists(ballots)| :: Lists(ballots)[i].1.first < Lists(ballots)[j].1.first
    decreases |ballots|
  {
    if ballots != [] {
      var n := |ballots| - 1;
      ListsIncrease(ballots[..n]);
      assert ballots == ballots[..n] + [ballots[n]];
      FirstsAppend(ballots[..n], ballots[n]);
      hide Firsts, Occurring;
      var before, after := Lists(ballots[..n]), Lists(ballots);
      assert forall i | 0 <= i < |before| :: after[i] == before[i];
      assert forall i | |before| <= i < |after| :: after[i] == ballots[n].value;
    }
  }

  method CountAll(candidates: seq<seq<string>>, text: Text) returns (votes: map<string, Vote>, order: seq<string>)
    ensures Counted(votes, order, Ballots(candidates, text))
  {
    votes, order := map[], [];
    ghost var ballots := Ballots(candidates, text);
    assert Counted(votes, order, ballots[..0]);
    hide Counted;
    for i := 0 to |candidates|
      invariant Counted(votes, order, ballots[..i])
    {
      BallotsPrefix(candidates, text, i);
      hide Ballots, Kept, Key;
      var kept := KeepNames(candidates[i], text);
      if |kept| == 0 {
        SkipBallot(votes, order, ballots[..i]);
        continue;
      }
      var key := VoteKey(kept, text);
      votes, order := CountVote(votes, order, ballots[..i], key, Entry(kept, i));
    }
    assert ballots[..|candidates|] == ballots;
  }

  /** The second loop: the leader so far against the next list. */
  method FindWinner(votes: map<string, Vote>, order: seq<string>, ghost ballots: seq<Item<string, Entry>>)
    returns (best: seq<string>, ghost w: nat)
    requires Counted(votes, order, ballots)
    requires forall i, j | 0 <= i < j < |Lists(ballots)| :: Lists(ballots)[i].1.first < Lists(ballots)[j].1.first
    ensures Lists(ballots) == [] ==> best == []
    ensures Lists(ballots) != [] ==> IsWinner(ballots, w) && best == Lists(ballots)[w].1.names
  {
    hide Lists, VotesFor, Runes, Spaced, Occurring, Beats;
    best, w := [], 0;
    var top: Option<Rank> := None;
    for i := 0 to |order|
      invariant top.None? <==> i == 0
      invariant i == 0 ==> best == []
      invariant i > 0 ==> w < i && top == Some(RankAt(ballots, w)) && best == Lists(ballots)[w].1.names
      invariant i > 0 ==> forall v | 0 <= v < i && v != w :: Beats(RankAt(ballots, w), RankAt(ballots, v))
    {
      var v := votes[order[i]];
      var rank := RankOf(Entry(v.names, v.first), v.count);
      assert rank == RankAt(ballots, i);
      if i > 0 {
        WinnerStep(ballots, w, i);
      }
      hide RankAt;
      if top.None? || Beats(rank, top.value) {
        best, top, w := v.names, Some(rank), i;
      }
    }
  }

  /** `pickAuthors`: the winner's names as its first candidate spelled them, or none if nobody voted. */
  method PickAuthors(candidates: seq<seq<string>>, text: Text) returns (best: seq<string>)
    ensures var ballots := Ballots(candidates, text);
      if Lists(ballots) == [] then best == []
      else exists w: nat :: IsWinner(ballots, w) && best == Lists(ballots)[w].1.names
  {
    ghost var ballots := Ballots(candidates, text);
    ListsIncrease(ballots);
    hide Lists, Ballots, IsWinner;
    var votes, order := CountAll(candidates, text);
    ghost var w;
    best, w := FindWinner(votes, order, ballots);
  }

  /** The next list either beats all before it or is beaten by the leader. */
  lemma WinnerStep(ballots: seq<Item<string, Entry>>, w: nat, i: nat)
    requires w < i < |Lists(ballots)| && Lists(ballots)[w].1.first < Lists(ballots)[i].1.first
    ensures Beats(RankAt(ballots, i), RankAt(ballots, w)) ==>
              forall v | 0 <= v < i && Beats(RankAt(ballots, w), RankAt(ballots, v)) :: Beats(RankAt(ballots, i), RankAt(ballots, v))
    ensures !Beats(RankAt(ballots, i), RankAt(ballots, w)) ==> Beats(RankAt(ballots, w), RankAt(ballots, i))
  {
    forall v | 0 <= v < i ensures
        Beats(RankAt(ballots, i), RankAt(ballots, w)) && Beats(RankAt(ballots, w), RankAt(ballots, v))
        ==> Beats(RankAt(ballots, i), RankAt(ballots, v))
    {
      BeatsIsTotal(RankAt(ballots, i), RankAt(ballots, w), RankAt(ballots, v));
    }
    BeatsIsTotal(RankAt(ballots, i), RankAt(ballots, w), RankAt(ballots, w));
  }

  /** There is one winner. */
  lemma WinnerIsUnique(ballots: seq<Item<string, Entry>>, w: nat, v: nat)
    requires IsWinner(ballots, w) && IsWinner(ballots, v)
    ensures w == v
  {
    BeatsIsTotal(RankAt(ballots, w), RankAt(ballots, v), RankAt(ballots, w));
  }

  // ---- what the winner has --------------------------------------------------------------------------------

  /**
   * No list has more votes than the winner; among those with as many votes none has more authors, and so on through the
   * characters, the names with a space and the place of the first candidate.
   */
  lemma WinnerLeads(ballots: seq<Item<string, Entry>>, w: nat, v: nat)
    requires IsWinner(ballots, w) && v < |Lists(ballots)| && v != w
    ensures var a, b := RankAt(ballots, w), RankAt(ballots, v);
      && a.count >= b.count
      && (a.count == b.count ==> a.authors >= b.authors)
      && (a.count == b.count && a.authors == b.authors ==> a.runes >= b.runes)
      && (a.count == b.count && a.authors == b.authors && a.runes == b.runes ==> a.spaced >= b.spaced)
      && (a.count == b.count && a.authors == b.authors && a.runes == b.runes && a.spaced == b.spaced ==> a.first < b.first)
  {
  }

  function VotersFor(ballots: seq<Item<string, Entry>>, key: string): set<nat> {
    set j | 0 <= j < |ballots| && ballots[j].Some? && ballots[j].value.0 == key
  }

  /** A list's votes are the candidates with its key. */
  lemma {:induction false} VotesAreVoters(ballots: seq<Item<string, Entry>>, key: string)
    ensures VotesFor(ballots, key) == |VotersFor(ballots, key)|
    decreases |ballots|
  {
    if ballots == [] {
      assert VotersFor(ballots, key) == {};
    } else {
      var n := |ballots| - 1;
      VotesAreVoters(ballots[..n], key);
      var before := VotersFor(ballots[..n], key);
      assert VotersFor(ballots, key) == before + if ballots[n].Some? && ballots[n].value.0 == key then {n} else {};
    }
  }

  /** Characters are counted in all names: the joined names without the separators. */
  lemma {:induction false} RunesAreLength(names: seq<string>)
    requires names != []
    ensures Runes(names) + |names| - 1 == |Join(names)|
    decreases |names|
  {
    if |names| == 1 {
      assert names[..0] == [];
    } else {
      RunesAreLength(names[1..]);
      RunesConcat(names[..1], names[1..]);
      assert names[..1][..0] == [];
      assert names == names[..1] + names[1..];
    }
  }

  lemma {:induction false} RunesConcat(a: seq<string>, b: seq<string>)
    ensures Runes(a + b) == Runes(a) + Runes(b)
    decreases |b|
  {
    if b == [] {
      assert a + b == a;
    } else {
      RunesConcat(a, b[..|b| - 1]);
      assert (a + b)[..|a + b| - 1] == a + b[..|b| - 1];
    }
  }

  function SpacedOnes(names: seq<string>): set<nat> {
    set i | 0 <= i < |names| && ' ' in names[i]
  }

  lemma {:induction false} SpacedAre(names: seq<string>)
    ensures Spaced(names) == |SpacedOnes(names)|
    decreases |names|
  {
    if names == [] {
      assert SpacedOnes(names) == {};
    } else {
      var n := |names| - 1;
      SpacedAre(names[..n]);
      var before := SpacedOnes(names[..n]);
      assert SpacedOnes(names) == before + if ' ' in names[n] then {n} else {};
    }
  }

  /** What a list is ranked by, in terms of its voters, its names and its joined text. */
  lemma RankMeans(ballots: seq<Item<string, Entry>>, i: nat)
    requires i < |Lists(ballots)| && Lists(ballots)[i].1.names != []
    ensures var r, names := RankAt(ballots, i), Lists(ballots)[i].1.names;
      && r.count == |VotersFor(ballots, Lists(ballots)[i].0)| && r.authors == |names|
      && r.runes + |names| - 1 == |Join(names)| && r.spaced == |SpacedOnes(names)| && r.first == Lists(ballots)[i].1.first
  {
    VotesAreVoters(ballots, Lists(ballots)[i].0);
    RunesAreLength(Lists(ballots)[i].1.names);
    SpacedAre(Lists(ballots)[i].1.names);
    hide VotesFor, VotersFor, Runes, Spaced, Lists;
  }

  /** Every name counts by itself: normalized, unless that is blank or a placeholder. */
  lemma {:induction false} KeptEach(names: seq<string>, more: seq<string>, name: string, text: Text)
    ensures Kept(names + more, text) == Kept(names, text) + Kept(more, text)
    ensures var n := text.normalize(name); Kept([name], text) == if n == "" || text.placeholder(n) then [] else [n]
    decreases |more|
  {
    assert Kept([name][..0], text) == [];
    if more == [] {
      assert names + more == names;
    } else {
      KeptEach(names, more[..|more| - 1], name, text);
      assert (names + more)[..|names + more| - 1] == names + more[..|more| - 1];
    }
  }

  /** "Last, First" votes as "First Last", unless nothing is left of it; a name without a comma votes as it is. */
  lemma CanonicalFlips(last: string, first: string, text: Text)
    requires ',' !in last
    ensures Canonical(last, text) == last
    ensures var flipped := text.normalize(first + " " + last);
      Canonical(last + "," + first, text) == if flipped != "" then flipped else last + "," + first
  {
    FirstCommaIs(last, "");
    assert last + "" == last;
    FirstCommaIs(last, "," + first);
    assert last + "," + first == last + ("," + first);
    var name := last + "," + first;
    assert name[..|last|] == last && name[|last| + 1..] == first;
  }

  lemma {:induction false} FirstCommaIs(last: string, rest: string)
    requires ',' !in last && (rest != "" ==> rest[0] == ',')
    ensures FirstComma(last + rest) == if rest == "" then None else Some(|last|)
    decreases |last|
  {
    if last == "" {
      assert last + rest == rest;
    } else {
      assert (last + rest)[1..] == last[1..] + rest;
      FirstCommaIs(last[1..], rest);
    }
  }

  /** Both candidates have names, and the same ones: canonically, each as often, in any order. */
  ghost predicate Agree(candidates: seq<seq<string>>, text: Text, i: nat, j: nat) {
    && i < |candidates| && j < |candidates| && Kept(candidates[i], text) != [] && Kept(candidates[j], text) != []
    && multiset(Canonicals(Kept(candidates[i], text), text)) == multiset(Canonicals(Kept(candidates[j], text), text))
  }

  ghost function Followers(candidates: seq<seq<string>>, text: Text, i: nat): set<nat> {
    set j | 0 <= j < |candidates| && Agree(candidates, text, i, j)
  }

  /** No canonical name has the separator in it. */
  ghost predicate Clean(candidates: seq<seq<string>>, text: Text) {
    forall i | 0 <= i < |candidates| :: SeparatorFree(Canonicals(Kept(candidates[i], text), text))
  }

  lemma AgreeIsKey(candidates: seq<seq<string>>, text: Text, i: nat, j: nat)
    requires Clean(candidates, text) && i < |candidates| && j < |candidates|
    requires Kept(candidates[i], text) != [] && Kept(candidates[j], text) != []
    ensures Agree(candidates, text, i, j) <==> Key(Kept(candidates[i], text), text) == Key(Kept(candidates[j], text), text)
  {
    KeyIsMultiset(Kept(candidates[i], text), Kept(candidates[j], text), text);
    hide Kept, Key, Canonicals;
  }

  lemma FollowersVote(candidates: seq<seq<string>>, text: Text, i: nat)
    requires Clean(candidates, text) && i < |candidates| && Kept(candidates[i], text) != []
    ensures VotersFor(Ballots(candidates, text), Key(Kept(candidates[i], text), text)) == Followers(candidates, text, i)
  {
    var ballots, key := Ballots(candidates, text), Key(Kept(candidates[i], text), text);
    hide Kept, Key, Clean, Agree;
    forall j: nat ensures j in VotersFor(ballots, key) <==> j in Followers(candidates, text, i) {
      if j < |candidates| {
        assert ballots[j] == Ballot(candidates[j], j, text);
        if Kept(candidates[j], text) != [] {
          AgreeIsKey(candidates, text, i, j);
        } else {
          assert !Agree(candidates, text, i, j) by { NoNames(candidates, text, i, j); }
        }
      }
    }
  }

  lemma NoNames(candidates: seq<seq<string>>, text: Text, i: nat, j: nat)
    requires j < |candidates| && Kept(candidates[j], text) == []
    ensures !Agree(candidates, text, i, j)
  {
  }

  /** A list is that of the first of the candidates who agree, and has the votes of all of them. */
  lemma ListIs(candidates: seq<seq<string>>, text: Text, w: nat)
    requires Clean(candidates, text) && w < |Lists(Ballots(candidates, text))|
    ensures var ballots := Ballots(candidates, text);
      var e := Lists(ballots)[w].1;
      && e.first < |candidates| && e.names == Kept(candidates[e.first], text) != []
      && Lists(ballots)[w].0 == Key(e.names, text)
      && (forall j | 0 <= j < e.first :: !Agree(candidates, text, j, e.first))
      && VotesFor(ballots, Lists(ballots)[w].0) == |Followers(candidates, text, e.first)|
  {
    var ballots := Ballots(candidates, text);
    var entry := Lists(ballots)[w];
    assert entry in Firsts(ballots);
    FirstsExact(ballots, entry);
    var i: nat :| FirstAt(ballots, i, entry);
    assert ballots[i] == Ballot(candidates[i], i, text);
    assert entry.1 == Entry(Kept(candidates[i], text), i);
    hide Kept, Key, Clean, Agree, Firsts;
    forall j | 0 <= j < i ensures !Agree(candidates, text, j, i) {
      assert ballots[j] == Ballot(candidates[j], j, text) && !SameKey(ballots[j], ballots[i]);
      if Kept(candidates[j], text) != [] {
        AgreeIsKey(candidates, text, j, i);
      } else {
        NoNames(candidates, text, i, j);
        AgreeBack(candidates, text, i, j);
      }
    }
    FollowersVote(candidates, text, i);
    VotesAreVoters(ballots, entry.0);
  }

  lemma AgreeBack(candidates: seq<seq<string>>, text: Text, i: nat, j: nat)
    ensures Agree(candidates, text, i, j) <==> Agree(candidates, text, j, i)
  {
  }

  /** Each candidate with names has a list, with the followers it has itself. */
  lemma ListOf(candidates: seq<seq<string>>, text: Text, j: nat) returns (v: nat)
    requires Clean(candidates, text) && j < |candidates| && Kept(candidates[j], text) != []
    ensures v < |Lists(Ballots(candidates, text))|
    ensures VotesFor(Ballots(candidates, text), Lists(Ballots(candidates, text))[v].0) == |Followers(candidates, text, j)|
    ensures Agree(candidates, text, Lists(Ballots(candidates, text))[v].1.first, j)
  {
    var ballots := Ballots(candidates, text);
    assert ballots[j] == Ballot(candidates[j], j, text);
    var key := Key(Kept(candidates[j], text), text);
    assert key in Occurring(ballots);
    FirstsKeys(ballots);
    v :| v < |Lists(ballots)| && Lists(ballots)[v].0 == key;
    hide Kept, Key, Clean, Agree, Firsts, Occurring, Ballots, VotersFor, Followers;
    FollowersVote(candidates, text, j);
    VotesAreVoters(ballots, key);
    ListIs(candidates, text, v);
    AgreeIsKey(candidates, text, Lists(ballots)[v].1.first, j);
  }

  /**
   * The authors picked are those of a candidate that as many candidates agree with as with any other, in the spelling of
   * the first of them; among such candidates none has more names. Nobody is picked exactly if no candidate has a name.
   */
  lemma MostCommonWins(candidates: seq<seq<string>>, text: Text, best: seq<string>)
    requires Clean(candidates, text)
    requires var ballots := Ballots(candidates, text);
      if Lists(ballots) == [] then best == []
      else exists w: nat :: IsWinner(ballots, w) && best == Lists(ballots)[w].1.names
    ensures best == [] <==> forall i | 0 <= i < |candidates| :: Kept(candidates[i], text) == []
    ensures best != [] ==> exists i: nat ::
              && i < |candidates| && best == Kept(candidates[i], text)
              && (forall j | 0 <= j < i :: !Agree(candidates, text, j, i))
              && forall j | 0 <= j < |candidates| && Kept(candidates[j], text) != [] ::
                   && |Followers(candidates, text, j)| <= |Followers(candidates, text, i)|
                   && (|Followers(candidates, text, j)| == |Followers(candidates, text, i)| ==> |Kept(candidates[j], text)| <= |best|)
  {
    var ballots := Ballots(candidates, text);
    hide Lists, Ballots, Kept, Key, Clean, Agree, VotesFor, Followers, Runes, Spaced;
    if Lists(ballots) == [] {
      forall j | 0 <= j < |candidates| ensures Kept(candidates[j], text) == [] {
        if Kept(candidates[j], text) != [] {
          var v := ListOf(candidates, text, j);
          assert false;
        }
      }
    } else {
      var w: nat :| IsWinner(ballots, w) && best == Lists(ballots)[w].1.names;
      ListIs(candidates, text, w);
      var i := Lists(ballots)[w].1.first;
      forall j | 0 <= j < |candidates| && Kept(candidates[j], text) != []
        ensures |Followers(candidates, text, j)| <= |Followers(candidates, text, i)|
        ensures |Followers(candidates, text, j)| == |Followers(candidates, text, i)| ==> |Kept(candidates[j], text)| <= |best|
      {
        var v := ListOf(candidates, text, j);
        ListIs(candidates, text, v);
        SameSize(candidates, text, Lists(ballots)[v].1.first, j);
        if v != w {
          WinnerLeads(ballots, w, v);
        }
      }
    }
  }

  lemma SameSize(candidates: seq<seq<string>>, text: Text, i: nat, j: nat)
    requires Agree(candidates, text, i, j)
    ensures |Kept(candidates[i], text)| == |Kept(candidates[j], text)|
  {
    var a, b := Canonicals(Kept(candidates[i], text), text), Canonicals(Kept(candidates[j], text), text);
    assert |a| == |multiset(a)| == |multiset(b)| == |b|;
  }

  // ---- every ballot counts once ---------------------------------------------------------------------------

  function Cast(ballots: seq<Item<string, Entry>>): nat {
    if ballots == [] then 0 else Cast(ballots[..|ballots| - 1]) + if ballots[|ballots| - 1].Some? then 1 else 0
  }

  /** The votes for the lists in `lists`. */
  function Tally(lists: seq<(string, Entry)>, ballots: seq<Item<string, Entry>>): nat {
    if lists == [] then 0
    else Tally(lists[..|lists| - 1], ballots) + VotesFor(ballots, lists[|lists| - 1].0)
  }

  /** One vote more is one more in the tally if its list is there. */
  lemma {:induction false} TallyAppend(lists: seq<(string, Entry)>, ballots: seq<Item<string, Entry>>, b: Item<string, Entry>)
    requires DistinctKeys(lists)
    ensures Tally(lists, ballots + [b]) == Tally(lists, ballots) + if b.Some? && b.value.0 in Keys(lists) then 1 else 0
    decreases |lists|
  {
    if lists != [] {
      var n := |lists| - 1;
      TallyAppend(lists[..n], ballots, b);
      VotesAppend(ballots, b, lists[n].0);
      assert lists == lists[..n] + [lists[n]];
      KeysAppend(lists[..n], lists[n]);
      LastKeyIsNew(lists);
      hide Keys, VotesFor;
    }
  }

  lemma LastKeyIsNew(lists: seq<(string, Entry)>)
    requires DistinctKeys(lists) && lists != []
    ensures lists[|lists| - 1].0 !in Keys(lists[..|lists| - 1])
  {
  }

  /** The counts of all lists add up to the candidates that have names. */
  lemma {:induction false} CountsAddUp(ballots: seq<Item<string, Entry>>)
    ensures Tally(Lists(ballots), ballots) == Cast(ballots)
    decreases |ballots|
  {
    if ballots != [] {
      var n := |ballots| - 1;
      var init, b := ballots[..n], ballots[n];
      assert ballots == init + [b];
      CountsAddUp(init);
      FirstsKeys(init);
      FirstsAppend(init, b);
      TallyAppend(Lists(init), init, b);
      if b.Some? && b.value.0 !in Occurring(init) {
        NoVotes(init, b.value.0);
        VotesAppend(init, b, b.value.0);
        assert Lists(ballots)[..|Lists(init)|] == Lists(init);
      } else {
        assert Lists(ballots) == Lists(init);
      }
      hide Firsts, Occurring;
    }
  }
}
