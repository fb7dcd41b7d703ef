/**
 * The choice of a legacy text encoding (internal/parser/txt/encoding.go:90-205): skipping the language detection of
 * candidates that cannot win never changes the choice. The detectors and decoders are parameters.
 */
module Legacy {
  import opened Base

  const CANDIDATE_LIMIT: nat := 6
  const FALLBACK := "windows-1252"

  /** One result of the encoding detector. */
  datatype Guess = Guess(charset: string, confidence: int)

  datatype Decoded = Decoded(quality: int, text: string)

  /** A candidate; `lang` is the confidence of the language found in its text, if one was. */
  datatype Candidate = Candidate(enc: string, confidence: int, quality: int, lang: Option<real>)

  /** The foreign code: label clean-up, the encoding for a label, decoding with the quality check, and the language. */
  datatype Tools = Tools(
    key: string -> string,
    encoding: string -> Option<string>,
    decode: string -> Option<Decoded>,
    language: string -> Option<real>)

  predicate Better(a: Candidate, b: Candidate) {
    if a.lang.Some? != b.lang.Some? then a.lang.Some?
    else if a.lang.Some? && a.lang.value - b.lang.value > 0.05 then true
    else if a.lang.Some? && a.lang.value - b.lang.value < -0.05 then false
    else if a.quality != b.quality then a.quality > b.quality
    else a.confidence > b.confidence
  }

  /** No other candidate of at most this quality can beat a leader that is fully confident of its language. */
  predicate Dominated(quality: int, leader: Option<Candidate>) {
    leader.Some? && leader.value.lang == Some(1.0) && quality <= leader.value.quality
  }

  // ---- exhaustive scoring ---------------------------------------------------------------------------------

  /** The candidate a guess stands for, unless its label is empty, unknown or does not decode. */
  function CandidateOf(g: Guess, tools: Tools): Option<Candidate> {
    match tools.encoding(g.charset)
    case None => None
    case Some(enc) =>
      match tools.decode(enc)
      case None => None
      case Some(d) => Some(Candidate(enc, g.confidence, d.quality, tools.language(d.text)))
  }

  /** The labels met, and the candidates accepted until the limit is reached. */
  datatype Accepted = Accepted(seen: set<string>, candidates: seq<Candidate>)

  function Accept(acc: Accepted, g: Guess, tools: Tools): Accepted {
    var key := tools.key(g.charset);
    if |acc.candidates| >= CANDIDATE_LIMIT || key in acc.seen || key == "" then acc
    else
      var c := CandidateOf(g, tools);
      Accepted(acc.seen + {key}, acc.candidates + if c.Some? then [c.value] else [])
  }

  function AcceptAll(guesses: seq<Guess>, tools: Tools): Accepted {
    if guesses == [] then Accepted({}, [])
    else Accept(AcceptAll(guesses[..|guesses| - 1], tools), guesses[|guesses| - 1], tools)
  }

  /** The first candidate, replaced by each later one that is better. */
  function Pick(candidates: seq<Candidate>): (best: Candidate)
    requires candidates != []
    ensures best in candidates
  {
    var n := |candidates| - 1;
    if n == 0 then candidates[0]
    else
      var best := Pick(candidates[..n]);
      if Better(candidates[n], best) then candidates[n] else best
  }

  /** Every candidate scored: the reference in internal/parser/txt/encoding_test.go:143-175. */
  function Exhaustive(guesses: seq<Guess>, tools: Tools): string {
    var candidates := AcceptAll(guesses, tools).candidates;
    if candidates == [] then FALLBACK else Pick(candidates).enc
  }

  // ---- pruned scoring -------------------------------------------------------------------------------------

  predicate Descending(guesses: seq<Guess>) {
    forall i, j | 0 <= i < j < |guesses| :: guesses[i].confidence >= guesses[j].confidence
  }

  ghost predicate Probabilities(tools: Tools) {
    forall text :: tools.language(text).Some? ==> tools.language(text).value <= 1.0
  }

  /** A dominated candidate is not better, whatever its language. */
  lemma DominatedLoses(c: Candidate, leader: Candidate)
    requires Dominated(c.quality, Some(leader)) && c.confidence <= leader.confidence
    requires c.lang.Some? ==> c.lang.value <= 1.0
    ensures !Better(c, leader)
  {
  }

  method PickCandidate(candidates: seq<Candidate>) returns (best: Candidate)
    requires candidates != []
    ensures best == Pick(candidates)
  {
    best := candidates[0];
    for i := 1 to |candidates|
      invariant best == Pick(candidates[..i])
    {
      assert candidates[..i + 1][..i] == candidates[..i];
      if Better(candidates[i], best) {
        best := candidates[i];
      }
    }
    assert candidates[..|candidates|] == candidates;
  }

  lemma PickAppend(candidates: seq<Candidate>, c: Candidate)
    ensures Pick(candidates + [c])
         == if candidates == [] then c else if Better(c, Pick(candidates)) then c else Pick(candidates)
  {
    assert (candidates + [c])[..|candidates|] == candidates;
  }

  /** Candidates inherit the order of the detector's confidence. */
  lemma {:induction false} ConfidenceAtLeast(guesses: seq<Guess>, tools: Tools, confidence: int)
    requires forall i | 0 <= i < |guesses| :: guesses[i].confidence >= confidence
    ensures forall c | c in AcceptAll(guesses, tools).candidates :: c.confidence >= confidence
    decreases |guesses|
  {
    if guesses != [] {
      ConfidenceAtLeast(guesses[..|guesses| - 1], tools, confidence);
    }
  }

  /** Past the limit, or past the end, nothing is accepted any more. */
  lemma {:induction false} Settled(guesses: seq<Guess>, tools: Tools, i: nat)
    requires i <= |guesses|
    requires i == |guesses| || PruneAll(guesses[..i], tools).accepted >= CANDIDATE_LIMIT
    ensures PruneAll(guesses, tools) == PruneAll(guesses[..i], tools)
    decreases |guesses|
  {
    if i == |guesses| {
      assert guesses[..i] == guesses;
    } else {
      assert guesses[..|guesses| - 1][..i] == guesses[..i];
      Settled(guesses[..|guesses| - 1], tools, i);
    }
  }

  /** The candidates kept so far choose like all those accepted, and `leader` is their choice. */
  ghost predicate Agree(kept: seq<Candidate>, leader: Option<Candidate>, all: seq<Candidate>) {
    && (kept == [] <==> all == [])
    && leader == (if kept == [] then None else Some(Pick(kept)))
    && (kept != [] ==> Pick(kept) == Pick(all))
  }

  lemma AgreeKept(kept: seq<Candidate>, leader: Option<Candidate>, all: seq<Candidate>, c: Candidate)
    requires Agree(kept, leader, all)
    ensures Agree(kept + [c], if leader.None? || Better(c, leader.value) then Some(c) else leader, all + [c])
  {
    PickAppend(kept, c);
    PickAppend(all, c);
  }

  lemma AgreeSkipped(kept: seq<Candidate>, leader: Option<Candidate>, all: seq<Candidate>, c: Candidate)
    requires Agree(kept, leader, all) && Dominated(c.quality, leader)
    requires (forall d | d in all :: d.confidence >= c.confidence) && (c.lang.Some? ==> c.lang.value <= 1.0)
    ensures Agree(kept, leader, all + [c])
  {
    DominatedLoses(c, leader.value);
    PickAppend(all, c);
  }

  /** The variables of the loop: labels met, candidates accepted, those kept, and the best of these. */
  datatype Scan = Scan(seen: set<string>, accepted: nat, kept: seq<Candidate>, leader: Option<Candidate>)

  /** One guess: a dominated candidate counts towards the limit but is not kept. */
  function PruneStep(scan: Scan, g: Guess, tools: Tools): Scan {
    var key := tools.key(g.charset);
    if scan.accepted >= CANDIDATE_LIMIT || key in scan.seen || key == "" then scan
    else match CandidateOf(g, tools)
      case None => scan.(seen := scan.seen + {key})
      case Some(c) =>
        var next := scan.(seen := scan.seen + {key}, accepted := scan.accepted + 1);
        if Dominated(c.quality, scan.leader) then next
        else next.(kept := scan.kept + [c],
                   leader := if scan.leader.None? || Better(c, scan.leader.value) then Some(c) else scan.leader)
  }

  function PruneAll(guesses: seq<Guess>, tools: Tools): Scan {
    if guesses == [] then Scan({}, 0, [], None)
    else PruneStep(PruneAll(guesses[..|guesses| - 1], tools), guesses[|guesses| - 1], tools)
  }

  function Pruned(guesses: seq<Guess>, tools: Tools): string {
    var kept := PruneAll(guesses, tools).kept;
    if kept == [] then FALLBACK else Pick(kept).enc
  }

  lemma AcceptNext(scan: Scan, all: Accepted, g: Guess, tools: Tools)
    requires scan.seen == all.seen && scan.accepted == |all.candidates| && Agree(scan.kept, scan.leader, all.candidates)
    requires Probabilities(tools) && forall c | c in all.candidates :: c.confidence >= g.confidence
    ensures var s, a := PruneStep(scan, g, tools), Accept(all, g, tools);
      s.seen == a.seen && s.accepted == |a.candidates| && Agree(s.kept, s.leader, a.candidates)
  {
    hide Agree, Better, Dominated, CandidateOf, Probabilities;
    var found := CandidateOf(g, tools);
    assert all.candidates + [] == all.candidates;
    if found.Some? {
      var c := found.value;
      CandidateIs(g, tools);
      AgreeKept(scan.kept, scan.leader, all.candidates, c);
      if Dominated(c.quality, scan.leader) {
        AgreeSkipped(scan.kept, scan.leader, all.candidates, c);
      }
    }
  }

  lemma CandidateIs(g: Guess, tools: Tools)
    requires Probabilities(tools) && CandidateOf(g, tools).Some?
    ensures var c := CandidateOf(g, tools).value; c.confidence == g.confidence && (c.lang.Some? ==> c.lang.value <= 1.0)
  {
  }

  /** On guesses in descending order pruned and exhaustive scanning go hand in hand. */
  lemma {:induction false} InStep(guesses: seq<Guess>, tools: Tools)
    requires Descending(guesses) && Probabilities(tools)
    ensures var s, a := PruneAll(guesses, tools), AcceptAll(guesses, tools);
      s.seen == a.seen && s.accepted == |a.candidates| && Agree(s.kept, s.leader, a.candidates)
    decreases |guesses|
  {
    hide Agree, PruneStep, Accept;
    if guesses == [] {
      NothingAccepted(tools);
    } else {
      var init, last := guesses[..|guesses| - 1], guesses[|guesses| - 1];
      InStep(init, tools);
      ConfidenceAtLeast(init, tools, last.confidence);
      AcceptNext(PruneAll(init, tools), AcceptAll(init, tools), last, tools);
    }
  }

  /** For guesses in descending order of confidence the pruned choice is the exhaustive one. */
  lemma PrunedIsExhaustive(guesses: seq<Guess>, tools: Tools)
    requires Descending(guesses) && Probabilities(tools)
    ensures Pruned(guesses, tools) == Exhaustive(guesses, tools)
  {
    InStep(guesses, tools);
    hide PruneAll, AcceptAll, Pick;
  }

  lemma NextPruned(guesses: seq<Guess>, tools: Tools, i: nat)
    requires i < |guesses|
    ensures PruneAll(guesses[..i + 1], tools) == PruneStep(PruneAll(guesses[..i], tools), guesses[i], tools)
  {
    assert guesses[..i + 1][..i] == guesses[..i];
  }

  /** The code: a candidate's language is detected only if it is kept. */
  method DetectLegacy(guesses: seq<Guess>, tools: Tools) returns (enc: string)
    ensures enc == Pruned(guesses, tools)
    ensures Descending(guesses) && Probabilities(tools) ==> enc == Exhaustive(guesses, tools)
  {
    if Descending(guesses) && Probabilities(tools) {
      PrunedIsExhaustive(guesses, tools);
    }
    hide PruneAll, Pick, Better, Dominated, Exhaustive, Descending, Probabilities;
    var seen: set<string>, candidates: seq<Candidate>, leader: Option<Candidate>, accepted := {}, [], None, 0;
    var i := 0;
    ghost var scan := PruneAll(guesses[..0], tools);
    NothingAccepted(tools);
    while i < |guesses|
      invariant i <= |guesses| && scan == PruneAll(guesses[..i], tools)
      invariant scan == Scan(seen, accepted, candidates, leader) && accepted < CANDIDATE_LIMIT
    {
      NextPruned(guesses, tools, i);
      scan := PruneAll(guesses[..i + 1], tools);
      var g := guesses[i];
      i := i + 1;
      var key := tools.key(g.charset);
      if key in seen || key == "" {
        continue;
      }
      seen := seen + {key};
      var found := tools.encoding(g.charset);
      if found.None? {
        continue;
      }
      var decoded := tools.decode(found.value);
      if decoded.None? {
        continue;
      }
      accepted := accepted + 1;
      if !Dominated(decoded.value.quality, leader) {
        var c := Candidate(found.value, g.confidence, decoded.value.quality, tools.language(decoded.value.text));
        candidates := candidates + [c];
        if leader.None? || Better(c, leader.value) {
          leader := Some(c);
        }
      }
      if accepted >= CANDIDATE_LIMIT {
        break;
      }
    }
    Settled(guesses, tools, i);
    if |candidates| == 0 {
      return FALLBACK;
    }
    var best := PickCandidate(candidates);
    return best.enc;
  }

  lemma NothingAccepted(tools: Tools)
    ensures AcceptAll([], tools) == Accepted({}, []) && PruneAll([], tools) == Scan({}, 0, [], None) && Agree([], None, [])
  {
  }

  // ---- what the choice is ---------------------------------------------------------------------------------

  /** If any candidate's text is in a language, the choice's is. */
  lemma {:induction false} LanguageWins(candidates: seq<Candidate>, c: Candidate)
    requires c in candidates && c.lang.Some?
    ensures Pick(candidates).lang.Some?
    decreases |candidates|
  {
    var n := |candidates| - 1;
    if n > 0 && c in candidates[..n] {
      LanguageWins(candidates[..n], c);
    }
  }

  /** A candidate whose language is surer than that of all others by more than 0.05 is chosen. */
  lemma {:induction false} ClearLanguageWins(candidates: seq<Candidate>, c: Candidate)
    requires c in candidates && c.lang.Some?
    requires forall d | d in candidates && d != c :: d.lang.None? || c.lang.value - d.lang.value > 0.05
    ensures Pick(candidates) == c
    decreases |candidates|
  {
    var n := |candidates| - 1;
    if n > 0 && c in candidates[..n] {
      ClearLanguageWins(candidates[..n], c);
    }
  }

  /** Better quality, or the same and better confidence. */
  predicate Cleaner(a: Candidate, b: Candidate) {
    a.quality > b.quality || (a.quality == b.quality && a.confidence > b.confidence)
  }

  lemma BetterIsCleaner(a: Candidate, b: Candidate)
    requires a.lang == b.lang
    ensures Better(a, b) <==> Cleaner(a, b)
  {
  }

  /** Among candidates equally sure of their language, or all without one, the cleanest is chosen, the first of equals. */
  lemma {:induction false} CleanestWins(candidates: seq<Candidate>) returns (w: nat)
    requires candidates != [] && forall i | 0 <= i < |candidates| :: candidates[i].lang == candidates[0].lang
    ensures w < |candidates| && Pick(candidates) == candidates[w]
    ensures forall i | 0 <= i < |candidates| :: !Cleaner(candidates[i], candidates[w])
    ensures forall i | 0 <= i < w :: Cleaner(candidates[w], candidates[i])
    decreases |candidates|
  {
    var n := |candidates| - 1;
    if n == 0 {
      w := 0;
    } else {
      assert Pick(candidates) == if Better(candidates[n], Pick(candidates[..n])) then candidates[n] else Pick(candidates[..n]);
      w := CleanestWins(candidates[..n]);
      BetterIsCleaner(candidates[n], candidates[w]);
      hide Better, Pick;
      if Cleaner(candidates[n], candidates[w]) {
        assert forall i | 0 <= i < n :: candidates[..n][i] == candidates[i];
        w := n;
      }
    }
  }

  /** The candidates of all guesses whose label is not blank and was not met before. */
  function Usable(guesses: seq<Guess>, tools: Tools): seq<Candidate> {
    if guesses == [] then []
    else
      var n := |guesses| - 1;
      var key := tools.key(guesses[n].charset);
      var found := CandidateOf(guesses[n], tools);
      Usable(guesses[..n], tools)
      + if key != "" && (forall i | 0 <= i < n :: tools.key(guesses[i].charset) != key) && found.Some? then [found.value] else []
  }

  /** What a candidate is made of. */
  lemma CandidateFields(g: Guess, tools: Tools)
    ensures CandidateOf(g, tools).Some?
       <==> tools.encoding(g.charset).Some? && tools.decode(tools.encoding(g.charset).value).Some?
    ensures CandidateOf(g, tools).Some? ==>
              var c, enc := CandidateOf(g, tools).value, tools.encoding(g.charset).value;
              var decoded := tools.decode(enc).value;
              c.enc == enc && c.confidence == g.confidence && c.quality == decoded.quality && c.lang == tools.language(decoded.text)
  {
  }

  /** The choice among the first six usable candidates; without any, Windows-1252. */
  lemma ExhaustiveIs(guesses: seq<Guess>, tools: Tools)
    ensures var usable := Usable(guesses, tools);
      Exhaustive(guesses, tools) == if usable == [] then "windows-1252" else Pick(usable[..Min(6, |usable|)]).enc
  {
    AcceptedAreUsable(guesses, tools);
    hide AcceptAll, Usable;
  }

  function LabelsOf(guesses: seq<Guess>, tools: Tools): set<string> {
    set i | 0 <= i < |guesses| && tools.key(guesses[i].charset) != "" :: tools.key(guesses[i].charset)
  }

  /** Those accepted are the first six usable ones. */
  lemma {:induction false} AcceptedAreUsable(guesses: seq<Guess>, tools: Tools)
    ensures var all, usable := AcceptAll(guesses, tools), Usable(guesses, tools);
      && all.candidates == usable[..Min(6, |usable|)]
      && (|usable| < 6 ==> all.seen == LabelsOf(guesses, tools))
    decreases |guesses|
  {
    if guesses == [] {
    } else {
      var n := |guesses| - 1;
      AcceptedAreUsable(guesses[..n], tools);
      LabelsMore(guesses, tools);
      hide CandidateOf, LabelsOf;
    }
  }

  lemma LabelsMore(guesses: seq<Guess>, tools: Tools)
    requires guesses != []
    ensures var n := |guesses| - 1;
      var key, before := tools.key(guesses[n].charset), LabelsOf(guesses[..n], tools);
      && LabelsOf(guesses, tools) == before + (if key == "" then {} else {key})
      && (key != "" ==> (key in before <==> exists i :: 0 <= i < n && tools.key(guesses[i].charset) == key))
  {
    var n := |guesses| - 1;
    assert forall i | 0 <= i < n :: guesses[..n][i] == guesses[i];
    var key, before := tools.key(guesses[n].charset), LabelsOf(guesses[..n], tools);
    if i :| 0 <= i < n && tools.key(guesses[i].charset) == key {
      assert key != "" ==> tools.key(guesses[..n][i].charset) in before;
    }
    forall k | k in before ensures k in LabelsOf(guesses, tools) {
      var i :| 0 <= i < n && tools.key(guesses[..n][i].charset) == k;
      assert tools.key(guesses[i].charset) == k;
    }
  }

  // ---- why the argument is needed -------------------------------------------------------------------------

  /** "Better" is not transitive, so the choice depends on the order and is no maximum. */
  lemma BetterIsNotTransitive()
    ensures exists a, b, c :: Better(a, b) && Better(b, c) && !Better(a, c) && Better(c, a)
  {
    var a, b, c := Candidate("a", 0, 3, Some(0.80)), Candidate("b", 0, 2, Some(0.84)), Candidate("c", 0, 1, Some(0.88));
    assert Better(a, b) && Better(b, c) && Better(c, a) && !Better(a, c);
  }

  /** Every label an encoding, every text of the same quality and surely in some language. */
  function PlainTools(): Tools {
    Tools(name => name, name => Some(name), enc => Some(Decoded(90, enc)), text => Some(1.0))
  }

  lemma BothAccepted(tools: Tools, a: Guess, b: Guess, ca: Candidate, cb: Candidate)
    requires tools == PlainTools() && a == Guess("a", 10) && b == Guess("b", 20)
    requires ca == Candidate("a", 10, 90, Some(1.0)) && cb == Candidate("b", 20, 90, Some(1.0))
    ensures AcceptAll([a, b], tools).candidates == [ca, cb]
  {
    assert [a, b][..1] == [a] && [a][..0] == [];
    NothingAccepted(tools);
    assert AcceptAll([a], tools) == Accept(AcceptAll([], tools), a, tools);
    assert AcceptAll([a, b], tools) == Accept(AcceptAll([a], tools), b, tools);
    hide AcceptAll;
    assert AcceptAll([a], tools) == Accepted({"a"}, [ca]);
  }

  lemma SecondPruned(tools: Tools, a: Guess, b: Guess, ca: Candidate)
    requires tools == PlainTools() && a == Guess("a", 10) && b == Guess("b", 20)
    requires ca == Candidate("a", 10, 90, Some(1.0))
    ensures PruneAll([a, b], tools).kept == [ca]
  {
    assert [a, b][..1] == [a] && [a][..0] == [];
    NothingAccepted(tools);
    assert PruneAll([a], tools) == PruneStep(PruneAll([], tools), a, tools);
    assert PruneAll([a, b], tools) == PruneStep(PruneAll([a], tools), b, tools);
    hide PruneAll;
    assert PruneAll([a], tools) == Scan({"a"}, 1, [ca], Some(ca));
  }

  /** Without the descending order the two choices differ: the second guess is skipped but would have won. */
  lemma OrderIsNeeded()
    ensures var guesses := [Guess("a", 10), Guess("b", 20)];
      Probabilities(PlainTools()) && Pruned(guesses, PlainTools()) == "a" && Exhaustive(guesses, PlainTools()) == "b"
  {
    var ca, cb := Candidate("a", 10, 90, Some(1.0)), Candidate("b", 20, 90, Some(1.0));
    BothAccepted(PlainTools(), Guess("a", 10), Guess("b", 20), ca, cb);
    SecondPruned(PlainTools(), Guess("a", 10), Guess("b", 20), ca);
    hide AcceptAll, PruneAll;
    assert [ca, cb][..1] == [ca];
  }
}
