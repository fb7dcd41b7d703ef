/**
 * Display paths of archive members: built with "!" by the processor (internal/processor/archive.go:227, 260, 340) and
 * taken apart by the report (internal/report/bookmeta.go:192-227).
 */
module DisplayPath {
  import opened Base

  /** Whether a lower- or upper-case extension is that of an archive. */
  type Extensions = string -> bool

  /** An archive extension is not empty and has no exclamation mark. */
  ghost predicate Proper(archive: Extensions) {
    forall e :: archive(e) ==> e != "" && '!' !in e
  }

  const ARCHIVE_EXTENSIONS := {".zip", ".rar", ".7z", ".tar", ".gz", ".bz2", ".tgz", ".tbz2"}

  /** The extensions the report knows are proper, for every lower-casing that keeps exclamation marks. */
  lemma KnownExtensionsAreProper(lower: string -> string)
    requires lower("") == "" && forall e :: '!' in e ==> '!' in lower(e)
    ensures Proper(e => lower(e) in ARCHIVE_EXTENSIONS)
  {
    assert forall e | e in ARCHIVE_EXTENSIONS :: '!' !in e && e != "";
  }

  /** `filepath.Ext`: from the last dot after the last slash. */
  function Ext(s: string): string {
    if s == "" then ""
    else
      var init, last := s[..|s| - 1], s[|s| - 1];
      if last == '/' then ""
      else if last == '.' then "."
      else if Ext(init) == "" then "" else Ext(init) + [last]
  }

  lemma {:induction false} ExtFits(s: string)
    ensures |Ext(s)| <= |s|
  {
    if s != "" {
      ExtFits(s[..|s| - 1]);
    }
  }

  /** The extension of a name with a dot after its last slash starts at the last dot; other names have none. */
  lemma {:induction false} ExtMeans(stem: string, tail: string)
    requires '.' !in tail && '/' !in tail
    ensures Ext(stem + "." + tail) == "." + tail
    ensures (stem == "" || stem[|stem| - 1] == '/') ==> Ext(stem + tail) == ""
    decreases |tail|
  {
    if tail == "" {
      assert (stem + "." + tail)[..|stem|] == stem;
      assert stem + tail == stem;
    } else {
      var n := |tail| - 1;
      ExtMeans(stem, tail[..n]);
      assert (stem + "." + tail)[..|stem| + 1 + n] == stem + "." + tail[..n];
      assert (stem + tail)[..|stem| + n] == stem + tail[..n];
    }
  }

  predicate IsArchiveName(s: string, archive: Extensions) {
    archive(Ext(s))
  }

  /** The "!" at `i` separates an archive from its member. */
  predicate IsBoundary(path: string, i: nat, archive: Extensions) {
    i < |path| && path[i] == '!' && IsArchiveName(path[..i], archive)
  }

  /** The boundary nearest the end, among those before `n`. */
  function LastBoundary(path: string, n: nat, archive: Extensions): (r: Option<nat>)
    requires n <= |path|
    ensures r.Some? ==> r.value < n && IsBoundary(path, r.value, archive)
    ensures forall j | 0 <= j < n && IsBoundary(path, j, archive) :: r.Some? && j <= r.value
  {
    if n == 0 then None else if IsBoundary(path, n - 1, archive) then Some(n - 1) else LastBoundary(path, n - 1, archive)
  }

  /** The pieces between the boundaries. */
  function Segments(path: string, archive: Extensions): (r: seq<string>)
    ensures r != []
    decreases |path|
  {
    match LastBoundary(path, |path|, archive)
    case None => [path]
    case Some(i) => Segments(path[..i], archive) + [path[i + 1..]]
  }

  function Join(names: seq<string>): string
    requires names != []
  {
    if |names| == 1 then names[0] else Join(names[..|names| - 1]) + "!" + names[|names| - 1]
  }

  // ---- the code -------------------------------------------------------------------------------------------

  /** `strings.LastIndex(path[:n], "!")`. */
  method LastMark(path: string, n: nat) returns (i: int)
    requires n <= |path|
    ensures -1 <= i < n && (i >= 0 ==> path[i] == '!')
    ensures forall j | i < j < n :: path[j] != '!'
  {
    i := n - 1;
    while i >= 0 && path[i] != '!'
      invariant -1 <= i < n && forall j | i < j < n :: path[j] != '!'
    {
      i := i - 1;
    }
  }

  method ArchiveBoundary(path: string, archive: Extensions) returns (i: int)
    ensures i == match LastBoundary(path, |path|, archive) case None => -1 case Some(k) => k
  {
    i := LastMark(path, |path|);
    while i >= 0
      invariant -1 <= i < |path| && (i >= 0 ==> path[i] == '!')
      invariant forall j | i < j < |path| :: !IsBoundary(path, j, archive)
    {
      if IsArchiveName(path[..i], archive) {
        assert IsBoundary(path, i, archive);
        return;
      }
      i := LastMark(path, i);
    }
    return -1;
  }

  /** The boundaries before `n`, from the last to the first. */
  function Cuts(path: string, n: nat, archive: Extensions): (r: seq<nat>)
    requires n <= |path|
    ensures forall k | 0 <= k < |r| :: r[k] < n
    ensures forall j, k | 0 <= j < k < |r| :: r[j] > r[k]
  {
    match LastBoundary(path, n, archive)
    case None => []
    case Some(i) => [i] + Cuts(path, i, archive)
  }

  /** Between two marks there is no cut. */
  lemma SkipTo(path: string, i: nat, m: nat, archive: Extensions)
    requires m <= i < |path| && path[i] == '!' && forall j | m <= j < i :: path[j] != '!'
    ensures Cuts(path, i + 1, archive)
         == if IsArchiveName(path[..i], archive) then [i] + Cuts(path, m, archive) else Cuts(path, m, archive)
  {
    NoCut(path, i, m, archive);
  }

  lemma {:induction false} NoCut(path: string, i: nat, m: nat, archive: Extensions)
    requires m <= i <= |path| && forall j | m <= j < i :: path[j] != '!'
    ensures LastBoundary(path, i, archive) == LastBoundary(path, m, archive)
    decreases i
  {
    if m < i {
      NoCut(path, i - 1, m, archive);
    }
  }

  /** `path` cut at `cuts`, given from the last to the first. */
  function Pieces(path: string, cuts: seq<nat>): (r: seq<string>)
    requires forall k | 0 <= k < |cuts| :: cuts[k] < |path|
    requires forall j, k | 0 <= j < k < |cuts| :: cuts[j] > cuts[k]
    ensures |r| == |cuts| + 1
    decreases |cuts|
  {
    if cuts == [] then [path] else Pieces(path[..cuts[0]], cuts[1..]) + [path[cuts[0] + 1..]]
  }

  lemma {:induction false} PrefixBoundary(path: string, i: nat, n: nat, archive: Extensions)
    requires n <= i <= |path|
    ensures LastBoundary(path[..i], n, archive) == LastBoundary(path, n, archive)
    decreases n
  {
    if n > 0 {
      assert path[..i][..n - 1] == path[..n - 1];
      PrefixBoundary(path, i, n - 1, archive);
    }
  }

  lemma {:induction false} PrefixCuts(path: string, i: nat, n: nat, archive: Extensions)
    requires n <= i <= |path|
    ensures Cuts(path[..i], n, archive) == Cuts(path, n, archive)
    decreases n
  {
    PrefixBoundary(path, i, n, archive);
    var b := LastBoundary(path, n, archive);
    if b.Some? {
      PrefixCuts(path, i, b.value, archive);
    }
  }

  lemma {:induction false} SegmentsArePieces(path: string, archive: Extensions)
    ensures Segments(path, archive) == Pieces(path, Cuts(path, |path|, archive))
    decreases |path|
  {
    var b := LastBoundary(path, |path|, archive);
    if b.Some? {
      SegmentsArePieces(path[..b.value], archive);
      PrefixCuts(path, b.value, b.value, archive);
      assert Cuts(path, |path|, archive)[1..] == Cuts(path, b.value, archive);
    }
  }

  /** The pieces of a prefix: those before its last cut, and the rest of the prefix. */
  lemma PrefixPieces(path: string, c: nat, cuts: seq<nat>)
    requires c <= |path| && forall k | 0 <= k < |cuts| :: cuts[k] < c
    requires forall j, k | 0 <= j < k < |cuts| :: cuts[j] > cuts[k]
    ensures var start := if cuts == [] then 0 else cuts[0] + 1;
      Pieces(path[..c], cuts) == Pieces(path, cuts)[..|cuts|] + [path[start..c]]
  {
    if cuts == [] {
      assert path[..c] == path[0..c];
    } else {
      assert path[..c][..cuts[0]] == path[..cuts[0]];
      assert path[..c][cuts[0] + 1..] == path[cuts[0] + 1..c];
      var heads := Pieces(path[..cuts[0]], cuts[1..]);
      assert Pieces(path, cuts)[..|cuts|] == heads;
    }
  }

  lemma OneCutMore(path: string, c: nat, cuts: seq<nat>)
    requires c < |path| && forall k | 0 <= k < |cuts| :: cuts[k] < c
    requires forall j, k | 0 <= j < k < |cuts| :: cuts[j] > cuts[k]
    ensures var start, n, next := if cuts == [] then 0 else cuts[0] + 1, |cuts|, Pieces(path, [c] + cuts);
      && next[..n + 1] == Pieces(path, cuts)[..n] + [path[start..c]]
      && next[n + 1] == path[c + 1..]
  {
    PrefixPieces(path, c, cuts);
    assert ([c] + cuts)[1..] == cuts && ([c] + cuts)[0] == c;
  }

  /** The cuts found so far, those at `i` and before still to come. */
  ghost predicate Found(path: string, cuts: seq<nat>, i: int, archive: Extensions) {
    -1 <= i < |path| && Cuts(path, |path|, archive) == cuts + Cuts(path, i + 1, archive)
  }

  lemma FoundNext(path: string, cuts: seq<nat>, i: nat, next: int, archive: Extensions)
    requires Found(path, cuts, i, archive) && path[i] == '!' && -1 <= next < i
    requires forall j | next < j < i :: path[j] != '!'
    ensures Found(path, if IsArchiveName(path[..i], archive) then cuts + [i] else cuts, next, archive)
  {
    SkipTo(path, i, next + 1, archive);
    hide Cuts, IsArchiveName;
    var rest := Cuts(path, next + 1, archive);
    assert cuts + ([i] + rest) == cuts + [i] + rest;
  }

  method CollectCuts(path: string, archive: Extensions) returns (cuts: seq<nat>)
    ensures cuts == Cuts(path, |path|, archive)
  {
    cuts := [];
    var i := LastMark(path, |path|);
    NoCut(path, |path|, i + 1, archive);
    assert Found(path, cuts, i, archive);
    while i >= 0
      invariant Found(path, cuts, i, archive) && -1 <= i < |path| && (i >= 0 ==> path[i] == '!')
    {
      hide *;
      var next := LastMark(path, i);
      FoundNext(path, cuts, i, next, archive);
      if IsArchiveName(path[..i], archive) {
        cuts := cuts + [i];
      }
      i := next;
    }
    assert cuts + [] == cuts;
  }

  /** The second loop's variables when the cuts from `k + 1` on, those nearer the start, are made. */
  ghost predicate Cutting(path: string, cuts: seq<nat>, k: int, start: int, segments: seq<string>)
    requires forall k | 0 <= k < |cuts| :: cuts[k] < |path|
    requires forall j, k | 0 <= j < k < |cuts| :: cuts[j] > cuts[k]
  {
    && -1 <= k < |cuts|
    && start == (if k == |cuts| - 1 then 0 else cuts[k + 1] + 1) <= |path|
    && segments == Pieces(path, cuts[k + 1..])[..|cuts| - k - 1]
    && Pieces(path, cuts[k + 1..])[|cuts| - k - 1] == path[start..]
  }

  lemma CuttingNext(path: string, cuts: seq<nat>, k: nat, start: int, segments: seq<string>)
    requires (forall k | 0 <= k < |cuts| :: cuts[k] < |path|) && forall j, k | 0 <= j < k < |cuts| :: cuts[j] > cuts[k]
    requires k < |cuts| && Cutting(path, cuts, k, start, segments)
    ensures 0 <= start <= cuts[k]
    ensures Cutting(path, cuts, k - 1, cuts[k] + 1, segments + [path[start..cuts[k]]])
  {
    assert cuts[k..] == [cuts[k]] + cuts[k + 1..];
    OneCutMore(path, cuts[k], cuts[k + 1..]);
    hide Pieces;
  }

  /** The second loop: the pieces from the first to the last. */
  method CutAt(path: string, cuts: seq<nat>) returns (segments: seq<string>)
    requires cuts != [] && forall k | 0 <= k < |cuts| :: cuts[k] < |path|
    requires forall j, k | 0 <= j < k < |cuts| :: cuts[j] > cuts[k]
    ensures segments == Pieces(path, cuts)
  {
    segments := [];
    var start := 0;
    var k := |cuts| - 1;
    while k >= 0
      invariant -1 <= k < |cuts| && Cutting(path, cuts, k, start, segments)
    {
      hide *;
      CuttingNext(path, cuts, k, start, segments);
      segments := segments + [path[start..cuts[k]]];
      start := cuts[k] + 1;
      k := k - 1;
    }
    assert cuts[0..] == cuts;
    return segments + [path[start..]];
  }

  method ArchiveSegments(path: string, archive: Extensions) returns (segments: seq<string>)
    ensures segments == Segments(path, archive)
  {
    var cuts := CollectCuts(path, archive);
    SegmentsArePieces(path, archive);
    if |cuts| == 0 {
      return [path];
    }
    segments := CutAt(path, cuts);
  }

  // ---- round trips ----------------------------------------------------------------------------------------

  /** Joining the segments of any path gives the path. */
  lemma {:induction false} JoinSegments(path: string, archive: Extensions)
    ensures Join(Segments(path, archive)) == path
    decreases |path|
  {
    var b := LastBoundary(path, |path|, archive);
    if b.Some? {
      var i := b.value;
      JoinSegments(path[..i], archive);
      var s := Segments(path, archive);
      assert s[..|s| - 1] == Segments(path[..i], archive);
      assert path == path[..i] + "!" + path[i + 1..];
    }
  }

  /** The last segment starts right after the boundary, or is the whole path. */
  lemma LastSegment(path: string, archive: Extensions)
    ensures var s := Segments(path, archive);
      s[|s| - 1] == match LastBoundary(path, |path|, archive) case None => path case Some(i) => path[i + 1..]
  {
  }

  /** The extension of a member is that of its display path, unless the latter runs over the "!". */
  lemma {:induction false} ExtOfMember(a: string, b: string)
    ensures if Ext(b) != "" then Ext(a + "!" + b) == Ext(b) else Ext(a + "!" + b) == "" || '!' in Ext(a + "!" + b)
    decreases |b|
  {
    var path := a + "!" + b;
    if b == "" {
      assert path[..|path| - 1] == a;
    } else {
      ExtOfMember(a, b[..|b| - 1]);
      assert path[..|path| - 1] == a + "!" + b[..|b| - 1];
      assert path[|path| - 1] == b[|b| - 1];
    }
  }

  lemma SameArchive(a: string, b: string, archive: Extensions)
    requires Proper(archive)
    ensures IsArchiveName(a + "!" + b, archive) <==> IsArchiveName(b, archive)
  {
    ExtOfMember(a, b);
  }

  /** No "!" inside the name is a boundary. */
  predicate Whole(name: string, archive: Extensions) {
    LastBoundary(name, |name|, archive) == None
  }

  /** Names a display path can be taken apart into: archives but for the last, none with a boundary inside. */
  ghost predicate Separable(names: seq<string>, archive: Extensions)
    requires names != []
  {
    && (forall k | 0 <= k < |names| - 1 :: IsArchiveName(names[k], archive))
    && (forall k | 0 <= k < |names| :: Whole(names[k], archive))
  }

  lemma JoinIsArchive(names: seq<string>, archive: Extensions)
    requires Proper(archive) && names != []
    ensures IsArchiveName(Join(names), archive) <==> IsArchiveName(names[|names| - 1], archive)
  {
    if |names| > 1 {
      SameArchive(Join(names[..|names| - 1]), names[|names| - 1], archive);
    }
  }

  lemma {:induction false} BoundaryInMember(a: string, b: string, n: nat, archive: Extensions)
    requires Proper(archive) && n <= |b|
    ensures var path := a + "!" + b;
      LastBoundary(path, |a| + 1 + n, archive)
      == match LastBoundary(b, n, archive)
         case Some(j) => Some(|a| + 1 + j)
         case None => if IsArchiveName(a, archive) then Some(|a|) else LastBoundary(path, |a|, archive)
    decreases n
  {
    var path := a + "!" + b;
    hide Ext, IsArchiveName;
    if n == 0 {
      assert path[..|a|] == a;
    } else {
      BoundaryInMember(a, b, n - 1, archive);
      assert path[..|a| + n] == a + "!" + b[..n - 1];
      SameArchive(a, b[..n - 1], archive);
    }
  }

  lemma {:induction false} SplitJoin(names: seq<string>, archive: Extensions)
    requires Proper(archive) && names != [] && Separable(names, archive)
    ensures Segments(Join(names), archive) == names
    decreases |names|
  {
    hide *;
    if |names| > 1 {
      var n := |names| - 1;
      SeparableInit(names, archive);
      SplitJoin(names[..n], archive);
      SplitLast(names[..n], names[n], archive);
      assert names == names[..n] + [names[n]];
    } else {
      OneSegment(names, archive);
    }
  }

  lemma OneSegment(names: seq<string>, archive: Extensions)
    requires |names| == 1 && Separable(names, archive)
    ensures Segments(Join(names), archive) == names
  {
  }

  lemma SeparableInit(names: seq<string>, archive: Extensions)
    requires |names| > 1 && Separable(names, archive)
    ensures var n := |names| - 1;
      && Separable(names[..n], archive)
      && IsArchiveName(names[..n][n - 1], archive)
      && Whole(names[n], archive)
  {
  }

  /** One more member is one more segment. */
  lemma SplitLast(names: seq<string>, b: string, archive: Extensions)
    requires Proper(archive) && names != [] && IsArchiveName(names[|names| - 1], archive)
    requires Whole(b, archive)
    ensures Segments(Join(names + [b]), archive) == Segments(Join(names), archive) + [b]
  {
    hide *;
    assert LastBoundary(b, |b|, archive) == None by { WholeMeans(b, archive); }
    JoinOneMore(names, b);
    JoinIsArchive(names, archive);
    BoundaryInMember(Join(names), b, |b|, archive);
    Parts(Join(names), b);
    CutOnce(Join(names) + "!" + b, |Join(names)|, archive);
  }

  lemma WholeMeans(b: string, archive: Extensions)
    ensures Whole(b, archive) <==> LastBoundary(b, |b|, archive) == None
  {
  }

  lemma JoinOneMore(names: seq<string>, b: string)
    requires names != []
    ensures Join(names + [b]) == Join(names) + "!" + b
  {
    assert (names + [b])[..|names|] == names;
  }

  lemma CutOnce(path: string, i: nat, archive: Extensions)
    requires LastBoundary(path, |path|, archive) == Some(i)
    ensures i < |path| && Segments(path, archive) == Segments(path[..i], archive) + [path[i + 1..]]
  {
  }

  lemma Parts(a: string, b: string)
    ensures var path := a + "!" + b; |path| == |a| + 1 + |b| && path[..|a|] == a && path[|a| + 1..] == b
  {
  }

  /** What comes out of a split is always separable. */
  lemma {:induction false} SegmentsSeparable(path: string, archive: Extensions)
    requires Proper(archive)
    ensures Separable(Segments(path, archive), archive)
    decreases |path|
  {
    var last := LastBoundary(path, |path|, archive);
    if last.Some? {
      var i := last.value;
      var a, b := path[..i], path[i + 1..];
      SegmentsSeparable(a, archive);
      assert path == a + "!" + b;
      BoundaryInMember(a, b, |b|, archive);
      JoinSegments(a, archive);
      JoinIsArchive(Segments(a, archive), archive);
    }
  }

  /** Names survive being joined and split exactly when they are separable. */
  lemma SplitJoinExact(names: seq<string>, archive: Extensions)
    requires Proper(archive) && names != []
    ensures Segments(Join(names), archive) == names <==> Separable(names, archive)
  {
    SegmentsSeparable(Join(names), archive);
    if Separable(names, archive) {
      SplitJoin(names, archive);
    }
  }

  /** A separable path and one more name are separable, path first, exactly if the name has no boundary inside. */
  lemma AppendName(names: seq<string>, b: string, archive: Extensions)
    requires Proper(archive) && names != [] && Separable(names, archive) && IsArchiveName(Join(names), archive)
    ensures Segments(Join(names) + "!" + b, archive) == names + [b] <==> Whole(b, archive)
  {
    hide *;
    JoinOneMore(names, b);
    JoinIsArchive(names, archive);
    SplitJoinExact(names + [b], archive);
    SeparableAppend(names, b, archive);
  }

  lemma SeparableAppend(names: seq<string>, b: string, archive: Extensions)
    requires names != [] && Separable(names, archive) && IsArchiveName(names[|names| - 1], archive)
    ensures Separable(names + [b], archive) <==> Whole(b, archive)
  {
    hide Whole, IsArchiveName;
    var all := names + [b];
    assert all[|names|] == b;
    forall k | 0 <= k < |names|
      ensures IsArchiveName(all[k], archive) && Whole(all[k], archive)
    {
      assert all[k] == names[k];
    }
  }
}
