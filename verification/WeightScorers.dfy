/** From weights to scorers: what `scorer` builds for a compiled query, and that its scores are the query's (index.rs). */
module WeightScorers {
  import opened Base
  import opened Dedup
  import opened DocSets
  import opened QueryCompiler
  import opened QueryMeaning
  import opened QueryScores
  import opened DemoteScorers
  import Demotion
  import FuzzyScorer

  /** A segment holds the documents below `maxDoc`, and postings name only those. */
  ghost predicate HoldsDocs(seg: Segment, maxDoc: nat) {
    && maxDoc <= TERMINATED
    && forall field, term ::
      FuzzyScorer.ValidEntry(seg.entry(field, term)) && forall d :: d in FuzzyScorer.Postings(seg.entry(field, term)) ==> d < maxDoc
  }

  /** The matching documents below `n`, in order. */
  function MatchingDocs(seg: Segment, w: Weight, n: nat): (r: seq<nat>) {
    if n == 0 then [] else MatchingDocs(seg, w, n - 1) + if WeightMatches(seg, w, n - 1) then [n - 1] else []
  }

  lemma {:induction false} MatchingDocsAreExact(seg: Segment, w: Weight, n: nat)
    ensures StrictlyAscending(MatchingDocs(seg, w, n))
    ensures forall d: nat :: d in MatchingDocs(seg, w, n) <==> d < n && WeightMatches(seg, w, d)
  {
    if n > 0 {
      MatchingDocsAreExact(seg, w, n - 1);
      var init := MatchingDocs(seg, w, n - 1);
      forall i | 0 <= i < |init| ensures init[i] < n - 1 {
        assert init[i] in init;
      }
    }
  }

  function ScoreOf(seg: Segment, rank: Ranking, w: Weight, boost: real): (r: nat -> real) {
    (d: nat) => Score(seg, rank, w, boost, d)
  }

  /** The scorer a weight builds. Boosts are handed down; the negative side always gets 1. */
  function ScorerOf(seg: Segment, rank: Ranking, w: Weight, boost: real, maxDoc: nat): (r: Demotion.Scorer) {
    match w
    case DemoteWeight(positive, negative, factor) =>
      Demotion.Demoted(ScorerOf(seg, rank, positive, boost, maxDoc), ScorerOf(seg, rank, negative, 1.0, maxDoc), factor)
    case BoostWeight(inner, factor) => ScorerOf(seg, rank, inner, Times(boost, factor), maxDoc)
    case CappedAutomatonWeight(_, _, _, _, _) => Demotion.Leaf(MatchingDocs(seg, w, maxDoc), ConstScore(boost))
    case _ => Demotion.Leaf(MatchingDocs(seg, w, maxDoc), ScoreOf(seg, rank, w, boost))
  }

  /** The new scorer stands before exactly the matching documents, and scores them as the query does. */
  lemma {:induction false} ScorerIsExact(seg: Segment, rank: Ranking, w: Weight, boost: real, maxDoc: nat)
    requires maxDoc <= TERMINATED
    ensures var s := ScorerOf(seg, rank, w, boost, maxDoc);
      && Demotion.Valid(s)
      && (forall d: nat :: d in Demotion.Remaining(s) <==> d < maxDoc && WeightMatches(seg, w, d))
      && (forall d: nat :: d < maxDoc ==> Demotion.ScoreAt(s, d) == Score(seg, rank, w, boost, d))
    decreases w
  {
    var s := ScorerOf(seg, rank, w, boost, maxDoc);
    match w {
      case DemoteWeight(positive, negative, factor) =>
        ScorerIsExact(seg, rank, positive, boost, maxDoc);
        ScorerIsExact(seg, rank, negative, 1.0, maxDoc);
        forall d | 0 <= d < maxDoc ensures Demotion.ScoreAt(s, d) == Score(seg, rank, w, boost, d) {
          Products(Score(seg, rank, positive, boost, d), 1.0, 1.0);
        }
      case BoostWeight(inner, factor) => ScorerIsExact(seg, rank, inner, Times(boost, factor), maxDoc);
      case _ => LeafIsExact(seg, rank, w, boost, maxDoc);
    }
  }

  lemma {:induction false} LeafIsExact(seg: Segment, rank: Ranking, w: Weight, boost: real, maxDoc: nat)
    requires maxDoc <= TERMINATED && !w.DemoteWeight? && !w.BoostWeight?
    ensures var s := ScorerOf(seg, rank, w, boost, maxDoc);
      && Demotion.Valid(s) && s.Leaf? && s.remaining == MatchingDocs(seg, w, maxDoc)
      && (forall d: nat :: d in s.remaining <==> d < maxDoc && WeightMatches(seg, w, d))
      && (forall d: nat :: s.score(d) == Score(seg, rank, w, boost, d))
  {
    var docs := MatchingDocs(seg, w, maxDoc);
    MatchingDocsAreExact(seg, w, maxDoc);
    forall i | 0 <= i < |docs| ensures docs[i] < TERMINATED {
      assert docs[i] in docs;
    }
  }

  /** Whatever was called before, the score at the current document is the one the compiled query gives it. */
  lemma {:induction false} ScoresSurviveAnyCalls(
    seg: Segment, rank: Ranking, w: Weight, boost: real, maxDoc: nat, calls: seq<Demotion.Call>)
    requires maxDoc <= TERMINATED
    ensures var s := Demotion.AfterCalls(ScorerOf(seg, rank, w, boost, maxDoc), calls);
      var d := Demotion.Doc(s);
      && d <= TERMINATED
      && (d < TERMINATED ==> WeightMatches(seg, w, d) && Demotion.Scored(s).0 == Score(seg, rank, w, boost, d))
  {
    var origin := ScorerOf(seg, rank, w, boost, maxDoc);
    var s := Demotion.AfterCalls(origin, calls);
    ScorerIsExact(seg, rank, w, boost, maxDoc);
    Demotion.ScoreIsHistoryIndependent(origin, calls);
    Demotion.CallsFollow(origin, calls);
    Demotion.FollowersAreSuffixes(origin, s);
    Demotion.DocIsBounded(s);
    Demotion.RemainingIsValid(origin);
    Demotion.SuffixIsValid(Demotion.Remaining(origin), Demotion.Remaining(s));
    if Demotion.Remaining(s) != [] {
      assert Demotion.Doc(s) in Demotion.Remaining(s);
    }
  }

  /** A compiled query from end to end: its new scorer stands before exactly the documents the query means, and
      after any calls the score of the current one is what the query says it is worth. */
  lemma {:induction false} CompiledQueryServesItsMeaning(
    index: Index, seg: Segment, rank: Ranking, spec: QuerySpec, maxDoc: nat, calls: seq<Demotion.Call>)
    requires ValidSegment(seg) && maxDoc <= TERMINATED && BuildQuery(index, spec).Ok?
    ensures var origin := ScorerOf(seg, rank, WeightOf(BuildQuery(index, spec).value, true), 1.0, maxDoc);
      && (forall d: nat :: d in Demotion.Remaining(origin) <==> d < maxDoc && Means(index, seg, spec, d))
      && var s := Demotion.AfterCalls(origin, calls);
      var d := Demotion.Doc(s);
      && d <= TERMINATED
      && (d < TERMINATED ==> Means(index, seg, spec, d) && Demotion.Scored(s).0 == Worth(index, seg, rank, spec, d))
  {
    hide Means, Worth, BuildQuery, WeightOf, Score, WeightMatches, Matches, ScorerOf, ValidSegment;
    var q := BuildQuery(index, spec).value;
    var w := WeightOf(q, true);
    ScorerIsExact(seg, rank, w, 1.0, maxDoc);
    forall d: nat ensures WeightMatches(seg, w, d) <==> Means(index, seg, spec, d) {
      ScoringKeepsDocs(seg, q, true, d);
      CompilationKeepsMeaning(index, seg, spec, d);
    }
    ScoresSurviveAnyCalls(seg, rank, w, 1.0, maxDoc, calls);
    var d := Demotion.Doc(Demotion.AfterCalls(ScorerOf(seg, rank, w, 1.0, maxDoc), calls));
    if d < TERMINATED {
      CompilationKeepsScores(index, seg, rank, spec, d);
    }
  }

  // ---- The objects ----

  /** `Weight::scorer`. */
  method BuildScorer(seg: Segment, rank: Ranking, w: Weight, boost: real, maxDoc: nat) returns (s: BoxedScorer)
    requires HoldsDocs(seg, maxDoc)
    ensures fresh(s.Repr()) && s.Valid()
    ensures s.Value() == ScorerOf(seg, rank, w, boost, maxDoc)
    decreases w, 1
  {
    if w.DemoteWeight? {
      s := BuildDemoting(seg, rank, w, boost, maxDoc);
    } else if w.BoostWeight? {
      s := BuildScorer(seg, rank, w.inner, Times(boost, w.factor), maxDoc);
    } else {
      s := BuildLeaf(seg, rank, w, boost, maxDoc);
    }
  }

  method BuildDemoting(seg: Segment, rank: Ranking, w: Weight, boost: real, maxDoc: nat) returns (s: BoxedScorer)
    requires HoldsDocs(seg, maxDoc) && w.DemoteWeight?
    ensures fresh(s.Repr()) && s.Valid()
    ensures s.Value() == ScorerOf(seg, rank, w, boost, maxDoc)
    decreases w, 0
  {
    var p := BuildScorer(seg, rank, w.positive, boost, maxDoc);
    ghost var pv := p.Value();
    assert pv == ScorerOf(seg, rank, w.positive, boost, maxDoc);
    assert forall o :: o in p.Repr() ==> allocated(o);
    var n := BuildScorer(seg, rank, w.negative, 1.0, maxDoc);
    assert p.Value() == pv;
    assert p.Repr() !! n.Repr() && fresh(p.Repr()) && fresh(n.Repr());
    ghost var nv := n.Value();
    assert nv == ScorerOf(seg, rank, w.negative, 1.0, maxDoc);
    s := Demoting(p, n, w.factor);
    assert s.Value() == Demotion.Demoted(pv, nv, w.factor);
  }

  method Demoting(positive: BoxedScorer, negative: BoxedScorer, factor: real) returns (s: BoxedScorer)
    requires positive.Valid() && negative.Valid() && positive.Repr() !! negative.Repr()
    ensures s.Valid() && s.Demote? && fresh(s.demote) && s.Repr() == {s.demote} + positive.Repr() + negative.Repr()
    ensures s.Value() == Demotion.Demoted(old(positive.Value()), old(negative.Value()), factor)
  {
    var demote := new DemoteScorer(positive, negative, factor);
    s := Demote(demote);
  }

  method BuildLeaf(seg: Segment, rank: Ranking, w: Weight, boost: real, maxDoc: nat) returns (s: BoxedScorer)
    requires HoldsDocs(seg, maxDoc) && !w.DemoteWeight? && !w.BoostWeight?
    ensures fresh(s.Repr()) && s.Valid()
    ensures s.Value() == ScorerOf(seg, rank, w, boost, maxDoc)
  {
    LeafIsExact(seg, rank, w, boost, maxDoc);
    if w.CappedAutomatonWeight? {
      var docs := CollectCapped(seg, w, maxDoc);
      var sorted := new SortedDocSet(docs);
      s := Const(sorted, boost);
    } else {
      var library := new LibraryScorer(MatchingDocs(seg, w, maxDoc), ScoreOf(seg, rank, w, boost));
      s := Library(library);
    }
  }

  /** The capped scorer's list is the ascending list of the weight's matching documents. */
  method CollectCapped(seg: Segment, w: Weight, maxDoc: nat) returns (docs: seq<nat>)
    requires HoldsDocs(seg, maxDoc) && w.CappedAutomatonWeight?
    ensures docs == MatchingDocs(seg, w, maxDoc)
  {
    var entries := ExpandedEntries(seg, w.field, w.token, w.distance, w.prefix);
    forall e | e in entries ensures FuzzyScorer.ValidEntry(e) && forall d :: d in FuzzyScorer.Postings(e) ==> d < maxDoc {
    }
    docs := FuzzyScorer.CollectDocs(entries, w.maxExpansions);
    var listed := MatchingDocs(seg, w, maxDoc);
    MatchingDocsAreExact(seg, w, maxDoc);
    assert Elements(docs) == Elements(listed) by {
      forall d ensures d in Elements(docs) <==> d in Elements(listed) {
        FuzzyScorer.UnionMembers(entries, Min(w.maxExpansions, |entries|), d);
      }
    }
    FuzzyScorer.AscendingListIsUnique(docs, listed);
  }

  /** `Weight::explain`: demotion explains its positive side and asks a new negative scorer; the capped weight seeks. */
  method ExplainDoc(seg: Segment, rank: Ranking, w: Weight, doc: nat, maxDoc: nat) returns (r: Option<real>)
    requires HoldsDocs(seg, maxDoc) && doc < maxDoc
    ensures r == Explain(seg, rank, w, doc)
    decreases w
  {
    match w
    case DemoteWeight(positive, negative, factor) =>
      var explained := ExplainDoc(seg, rank, positive, doc, maxDoc);
      if explained == None {
        return None;
      }
      var scorer := BuildScorer(seg, rank, negative, 1.0, maxDoc);
      ghost var origin := scorer.Value();
      ScorerIsExact(seg, rank, negative, 1.0, maxDoc);
      Demotion.FreshFollowsItself(origin);
      Demotion.ProbeIsExact(origin, origin, doc);
      var matched := DemoteScorer.MatchesDoc(scorer, doc);
      r := Some(Times(explained.value, if matched then factor else 1.0));
    case BoostWeight(inner, factor) =>
      var explained := ExplainDoc(seg, rank, inner, doc, maxDoc);
      r := if explained == None then None else Some(Times(explained.value, factor));
    case CappedAutomatonWeight(_, _, _, _, _) =>
      var scorer := BuildScorer(seg, rank, w, 1.0, maxDoc);
      LeafIsExact(seg, rank, w, 1.0, maxDoc);
      Demotion.SeekFinds(scorer.Value().remaining, doc);
      var landed := scorer.Seek(doc);
      r := if landed == doc then Some(1.0) else None;
    case _ => r := Explain(seg, rank, w, doc);
  }
}
