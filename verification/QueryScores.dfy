/** Weights and scores of compiled queries, with scoring on and off (index.rs). */
module QueryScores {
  import opened Base
  import opened QueryCompiler
  import opened QueryMeaning
  import opened FuzzyScorer
  import FuzzyAutomaton
  import PhraseText
  import Utf8

  /** The engine's own scores of a term, and of a phrase with its slop, in a document. */
  datatype Ranking = Ranking(term: (string, string, nat) -> real, phrase: (string, string, nat, nat) -> real)

  datatype WeightChild = WeightChild(occur: Occur, weight: Weight)

  datatype Weight =
    | EmptyWeight
    | TermWeight(field: string, token: string)
    | CappedAutomatonWeight(field: string, token: string, distance: nat, prefix: string, maxExpansions: usize)
    | ParsedWeight(field: string, text: string)
    | BooleanWeight(children: seq<WeightChild>, scoring: bool)
    | BoostWeight(inner: Weight, factor: real)
    | DemoteWeight(positive: Weight, negative: Weight, factor: real)

  /** `Query::weight`. Without scoring, boosts and demotions disappear; a negative side never needs scores. */
  function WeightOf(q: Query, scoring: bool): (r: Weight) {
    match q
    case EmptyQuery => EmptyWeight
    case TermQuery(field, token) => TermWeight(field, token)
    case CappedFuzzyTermQuery(field, token, distance, prefix, cap) => CappedAutomatonWeight(field, token, distance, prefix, cap)
    case ParsedQuery(field, text) => ParsedWeight(field, text)
    case BooleanQuery(cs) =>
      BooleanWeight(seq(|cs|, i requires 0 <= i < |cs| => WeightChild(cs[i].occur, WeightOf(cs[i].query, scoring))), scoring)
    case BoostQuery(inner, factor) => if scoring then BoostWeight(WeightOf(inner, true), factor) else WeightOf(inner, false)
    case DemoteQuery(positive, negative, factor) =>
      if scoring then DemoteWeight(WeightOf(positive, true), WeightOf(negative, false), factor) else WeightOf(positive, false)
  }

  predicate WeightMatches(seg: Segment, w: Weight, d: nat) {
    match w
    case EmptyWeight => false
    case TermWeight(field, token) => d in Postings(seg.entry(field, Utf8.Encode(token)))
    case CappedAutomatonWeight(field, token, distance, prefix, cap) =>
      d in CappedUnion(ExpandedEntries(seg, field, token, distance, prefix), cap)
    case ParsedWeight(field, text) => PhraseMatches(seg, field, text, d)
    case BooleanWeight(cs, _) =>
      && (forall i :: 0 <= i < |cs| && cs[i].occur.Must? ==> WeightMatches(seg, cs[i].weight, d))
      && (forall i :: 0 <= i < |cs| && cs[i].occur.MustNot? ==> !WeightMatches(seg, cs[i].weight, d))
      && ((exists i :: 0 <= i < |cs| && cs[i].occur.Must?)
          || exists i :: 0 <= i < |cs| && cs[i].occur.Should? && WeightMatches(seg, cs[i].weight, d))
    case BoostWeight(inner, _) => WeightMatches(seg, inner, d)
    case DemoteWeight(positive, _, _) => WeightMatches(seg, positive, d)
  }

  /** The documents are the same whether scores are wanted or not. */
  lemma {:induction false} ScoringKeepsDocs(seg: Segment, q: Query, scoring: bool, d: nat)
    ensures WeightMatches(seg, WeightOf(q, scoring), d) <==> Matches(seg, q, d)
    decreases q
  {
    match q {
      case BooleanQuery(cs) =>
        var w := WeightOf(q, scoring);
        forall i | 0 <= i < |cs|
          ensures w.children[i].occur == cs[i].occur
            && (WeightMatches(seg, w.children[i].weight, d) <==> Matches(seg, cs[i].query, d))
        {
          ScoringKeepsDocs(seg, cs[i].query, scoring, d);
        }
        BooleansAgree(seg, w, cs, d);
      case BoostQuery(inner, _) => ScoringKeepsDocs(seg, inner, scoring, d);
      case DemoteQuery(positive, _, _) => ScoringKeepsDocs(seg, positive, scoring, d);
      case _ =>
    }
  }

  lemma {:induction false} BooleansAgree(seg: Segment, w: Weight, cs: seq<Child>, d: nat)
    requires w.BooleanWeight? && |w.children| == |cs|
    requires forall i :: 0 <= i < |cs| ==> w.children[i].occur == cs[i].occur
    requires forall i :: 0 <= i < |cs| ==> (WeightMatches(seg, w.children[i].weight, d) <==> Matches(seg, cs[i].query, d))
    ensures WeightMatches(seg, w, d) <==> Matches(seg, BooleanQuery(cs), d)
  {
  }

  // ---- Scores ----

  function Times(x: real, y: real): (r: real) {
    x * y
  }

  /** A parsed query scores as the phrase read from its text. */
  function PhraseScore(rank: Ranking, field: string, text: string, d: nat): (r: real) {
    match PhraseText.ReadPhrase(text)
    case None => 0.0
    case Some((terms, slop)) => rank.phrase(field, terms, slop, d)
  }

  /** The factor of a demotion at a document. */
  function DemoteFactor(seg: Segment, negative: Weight, factor: real, d: nat): (r: real) {
    if WeightMatches(seg, negative, d) then factor else 1.0
  }

  /** The score that `scorer(boost)` of a weight gives a document. */
  function Score(seg: Segment, rank: Ranking, w: Weight, boost: real, d: nat): (r: real)
    decreases w, 1
  {
    match w
    case EmptyWeight => 0.0
    case TermWeight(field, token) => Times(boost, rank.term(field, token, d))
    case CappedAutomatonWeight(_, _, _, _, _) => boost
    case ParsedWeight(field, text) => Times(boost, PhraseScore(rank, field, text, d))
    case BooleanWeight(cs, scoring) => if scoring then SumOfMatching(seg, rank, w, |cs|, boost, d) else 1.0
    case BoostWeight(inner, factor) => Score(seg, rank, inner, Times(boost, factor), d)
    case DemoteWeight(positive, negative, factor) =>
      Times(Score(seg, rank, positive, boost, d), DemoteFactor(seg, negative, factor, d))
  }

  /** What a clause adds: its score if it is not prohibited and matches. */
  function ClauseScore(seg: Segment, rank: Ranking, w: Weight, i: nat, boost: real, d: nat): (r: real)
    requires w.BooleanWeight? && i < |w.children|
    decreases w, 0, i
  {
    var c := w.children[i];
    if !c.occur.MustNot? && WeightMatches(seg, c.weight, d) then Score(seg, rank, c.weight, boost, d) else 0.0
  }

  function SumOfMatching(seg: Segment, rank: Ranking, w: Weight, n: nat, boost: real, d: nat): (r: real)
    requires w.BooleanWeight? && n <= |w.children|
    decreases w, 0, n
  {
    if n == 0 then 0.0
    else SumOfMatching(seg, rank, w, n - 1, boost, d) + ClauseScore(seg, rank, w, n - 1, boost, d)
  }

  /** Every part of a weight whose score counts was built with scoring on. */
  predicate BuiltForScoring(w: Weight) {
    match w
    case BooleanWeight(cs, scoring) => scoring && forall i :: 0 <= i < |cs| ==> BuiltForScoring(cs[i].weight)
    case BoostWeight(inner, _) => BuiltForScoring(inner)
    case DemoteWeight(positive, _, _) => BuiltForScoring(positive)
    case _ => true
  }

  lemma {:induction false} ScoringBuildsForScores(q: Query)
    ensures BuiltForScoring(WeightOf(q, true))
    decreases q
  {
    match q {
      case BooleanQuery(cs) =>
        forall i | 0 <= i < |cs| ensures BuiltForScoring(WeightOf(q, true).children[i].weight) {
          ScoringBuildsForScores(cs[i].query);
        }
      case BoostQuery(inner, _) => ScoringBuildsForScores(inner);
      case DemoteQuery(positive, _, _) => ScoringBuildsForScores(positive);
      case _ =>
    }
  }

  lemma {:induction false} ScoreOfBoost(seg: Segment, rank: Ranking, w: Weight, boost: real, d: nat)
    requires w.BoostWeight?
    ensures Score(seg, rank, w, boost, d) == Score(seg, rank, w.inner, Times(boost, w.factor), d)
  {
  }

  lemma {:induction false} Products(x: real, y: real, z: real)
    ensures Times(Times(x, y), z) == Times(x, Times(y, z)) == x * Times(y, z)
    ensures Times(x, y + z) == Times(x, y) + Times(x, z)
    ensures Times(x, 1.0) == Times(1.0, x) == x
    ensures Times(x, y) == Times(y, x)
  {
    assert x * (y + z) == x * y + x * z;
    assert (x * y) * z == x * (y * z);
  }

  /** Scores are compositional: a boost handed to a scorer multiplies every score by it. */
  lemma {:induction false} BoostMultipliesScore(seg: Segment, rank: Ranking, w: Weight, k: real, boost: real, d: nat)
    requires BuiltForScoring(w)
    ensures Score(seg, rank, w, Times(k, boost), d) == Times(k, Score(seg, rank, w, boost, d))
    decreases w, 1
  {
    match w {
      case BooleanWeight(cs, _) => BoostMultipliesSum(seg, rank, w, |cs|, k, boost, d);
      case BoostWeight(inner, factor) => BoostMultipliesBoost(seg, rank, w, k, boost, d);
      case DemoteWeight(positive, negative, factor) => BoostMultipliesDemote(seg, rank, w, k, boost, d);
      case TermWeight(field, token) => Products(k, boost, rank.term(field, token, d));
      case ParsedWeight(field, text) => Products(k, boost, PhraseScore(rank, field, text, d));
      case EmptyWeight =>
      case CappedAutomatonWeight(_, _, _, _, _) =>
    }
  }

  lemma {:induction false} BoostMultipliesBoost(seg: Segment, rank: Ranking, w: Weight, k: real, boost: real, d: nat)
    requires BuiltForScoring(w) && w.BoostWeight?
    ensures Score(seg, rank, w, Times(k, boost), d) == Times(k, Score(seg, rank, w, boost, d))
    decreases w, 0
  {
    ScoreOfBoost(seg, rank, w, boost, d);
    ScoreOfBoost(seg, rank, w, Times(k, boost), d);
    Products(k, boost, w.factor);
    BoostMultipliesScore(seg, rank, w.inner, k, Times(boost, w.factor), d);
  }

  lemma {:induction false} BoostMultipliesDemote(seg: Segment, rank: Ranking, w: Weight, k: real, boost: real, d: nat)
    requires BuiltForScoring(w) && w.DemoteWeight?
    ensures Score(seg, rank, w, Times(k, boost), d) == Times(k, Score(seg, rank, w, boost, d))
    decreases w, 0
  {
    BoostMultipliesScore(seg, rank, w.positive, k, boost, d);
    Products(k, Score(seg, rank, w.positive, boost, d), DemoteFactor(seg, w.negative, w.factor, d));
  }

  lemma {:induction false} BoostMultipliesSum(seg: Segment, rank: Ranking, w: Weight, n: nat, k: real, boost: real, d: nat)
    requires w.BooleanWeight? && BuiltForScoring(w) && n <= |w.children|
    ensures SumOfMatching(seg, rank, w, n, Times(k, boost), d) == Times(k, SumOfMatching(seg, rank, w, n, boost, d))
    decreases w, 0, n
  {
    if n > 0 {
      var c := w.children[n - 1];
      BoostMultipliesSum(seg, rank, w, n - 1, k, boost, d);
      BoostMultipliesScore(seg, rank, c.weight, k, boost, d);
      Products(k, SumOfMatching(seg, rank, w, n - 1, boost, d), ClauseScore(seg, rank, w, n - 1, boost, d));
    }
  }

  /** `Weight::explain`: the explained value, or none where the document does not match. */
  function Explain(seg: Segment, rank: Ranking, w: Weight, d: nat): (r: Option<real>) {
    match w
    case EmptyWeight => None
    case TermWeight(field, token) => if WeightMatches(seg, w, d) then Some(rank.term(field, token, d)) else None
    case CappedAutomatonWeight(_, _, _, _, _) => if WeightMatches(seg, w, d) then Some(1.0) else None
    case ParsedWeight(field, text) => if WeightMatches(seg, w, d) then Some(PhraseScore(rank, field, text, d)) else None
    case BooleanWeight(_, scoring) =>
      if !WeightMatches(seg, w, d) then None else if scoring then Some(Score(seg, rank, w, 1.0, d)) else Some(1.0)
    case BoostWeight(inner, factor) =>
      (match Explain(seg, rank, inner, d) case None => None case Some(v) => Some(Times(v, factor)))
    case DemoteWeight(positive, negative, factor) =>
      match Explain(seg, rank, positive, d)
      case None => None
      case Some(v) => Some(Times(v, DemoteFactor(seg, negative, factor, d)))
  }

  /** An explanation exists exactly at matching documents, and its value is the score a fresh scorer gives there. */
  lemma {:induction false} ExplanationIsScore(seg: Segment, rank: Ranking, w: Weight, d: nat)
    requires BuiltForScoring(w)
    ensures Explain(seg, rank, w, d) == if WeightMatches(seg, w, d) then Some(Score(seg, rank, w, 1.0, d)) else None
    decreases w
  {
    match w {
      case BoostWeight(inner, factor) =>
        ExplanationIsScore(seg, rank, inner, d);
        BoostMultipliesScore(seg, rank, inner, factor, 1.0, d);
        ScoreOfBoost(seg, rank, w, 1.0, d);
        Products(factor, Score(seg, rank, inner, 1.0, d), 1.0);
      case DemoteWeight(positive, _, _) => ExplanationIsScore(seg, rank, positive, d);
      case _ =>
    }
  }

  // ---- What a query's scores mean ----

  function TokenScore(rank: Ranking, field: string, token: string, o: MatchOptions, d: nat): (r: real) {
    if MeantDistance(o, token) == 0 then rank.term(field, token, d) else 1.0
  }

  /** What a token adds: its score where it occurs. */
  function TokenPart(seg: Segment, rank: Ranking, field: string, token: string, o: MatchOptions, d: nat): (r: real) {
    if TokenMeans(seg, field, token, o, d) then TokenScore(rank, field, token, o, d) else 0.0
  }

  function TokensScore(seg: Segment, rank: Ranking, field: string, tokens: seq<string>, o: MatchOptions, n: nat, d: nat): (r: real)
    requires n <= |tokens|
  {
    if n == 0 then 0.0
    else TokensScore(seg, rank, field, tokens, o, n - 1, d) + TokenPart(seg, rank, field, tokens[n - 1], o, d)
  }

  function FieldScore(seg: Segment, rank: Ranking, field: string, tokens: seq<string>, o: MatchOptions, d: nat): (r: real) {
    TokensScore(seg, rank, field, tokens, o, |tokens|, d)
  }

  /** The boost that shows in a score: the one asked for, unless it is within one float step, 1/8388608, of 1. */
  function AppliedBoost(boost: real): (r: real)
    ensures boost < 8388607.0 / 8388608.0 || boost > 8388609.0 / 8388608.0 ==> r == boost
    ensures 8388607.0 / 8388608.0 <= boost <= 8388609.0 / 8388608.0 ==> r == 1.0
  {
    if 8388607.0 / 8388608.0 <= boost <= 8388609.0 / 8388608.0 then 1.0 else boost
  }

  /** What a field adds: its boosted score where it matches. */
  function FieldPart(seg: Segment, rank: Ranking, t: Target, tokens: seq<string>, o: MatchOptions, d: nat): (r: real) {
    if FieldMeans(seg, t.field, tokens, o, d) && t.boost.Finite?
    then Times(AppliedBoost(t.boost.value), FieldScore(seg, rank, t.field, tokens, o, d)) else 0.0
  }

  function FieldsScore(seg: Segment, rank: Ranking, targets: seq<Target>, tokens: seq<string>, o: MatchOptions, n: nat, d: nat): (r: real)
    requires n <= |targets|
  {
    if n == 0 then 0.0
    else FieldsScore(seg, rank, targets, tokens, o, n - 1, d) + FieldPart(seg, rank, targets[n - 1], tokens, o, d)
  }

  function NamesOf(index: Index, columns: seq<string>): (r: seq<string>) {
    MapSeq(c => NameOf(index, c), columns)
  }

  /** The score a query gives a document it means. */
  function Worth(index: Index, seg: Segment, rank: Ranking, spec: QuerySpec, d: nat): (r: real)
    decreases spec, 1
  {
    match spec
    case Match(column, terms, o, boost) =>
      var targets := SameBoost(SearchedFields(index, column), boost);
      FieldsScore(seg, rank, targets, index.analyze(terms), o, |targets|, d)
    case MultiMatch(terms, columns, boosts, o) =>
      var targets := OwnBoosts(NamesOf(index, columns), boosts);
      FieldsScore(seg, rank, targets, index.analyze(terms), o, |targets|, d)
    case MatchPhrase(column, terms, slop) =>
      rank.phrase(if NamedField(index, column).Some? then NamedField(index, column).value else "", terms, slop, d)
    case Boolean(should, must, _, queries) =>
      ListWorth(index, seg, rank, spec, should, d) + ListWorth(index, seg, rank, spec, must, d)
        + ClausesWorth(index, seg, rank, spec, queries, d)
    case Boost(positive, negative, negativeBoost) =>
      Times(Worth(index, seg, rank, positive, d), if negativeBoost.Finite? && Means(index, seg, negative, d) then negativeBoost.value else 1.0)
  }

  /** The sum over the queries that are meant. */
  function ListWorth(index: Index, seg: Segment, rank: Ranking, ghost whole: QuerySpec, specs: seq<QuerySpec>, d: nat): (r: real)
    requires forall i :: 0 <= i < |specs| ==> specs[i] < whole
    decreases whole, 0, |specs|
  {
    if specs == [] then 0.0
    else
      var n := |specs| - 1;
      var part := if Means(index, seg, specs[n], d) then Worth(index, seg, rank, specs[n], d) else 0.0;
      ListWorth(index, seg, rank, whole, specs[..n], d) + part
  }

  /** The sum over the clauses that are not prohibited and are meant. */
  function ClausesWorth(index: Index, seg: Segment, rank: Ranking, ghost whole: QuerySpec, clauses: seq<Clause>, d: nat): (r: real)
    requires forall i :: 0 <= i < |clauses| ==> clauses[i].query < whole
    decreases whole, 0, |clauses|
  {
    if clauses == [] then 0.0
    else
      var n := |clauses| - 1;
      var part := if !clauses[n].occur.MustNot? && Means(index, seg, clauses[n].query, d)
                  then Worth(index, seg, rank, clauses[n].query, d) else 0.0;
      ClausesWorth(index, seg, rank, whole, clauses[..n], d) + part
  }

  lemma {:induction false} TokenKeepsScore(seg: Segment, rank: Ranking, field: string, token: string, o: MatchOptions, d: nat)
    requires ValidSegment(seg) && BuildTokenQuery(field, token, o).Ok?
    ensures var w := WeightOf(BuildTokenQuery(field, token, o).value, true);
      && Score(seg, rank, w, 1.0, d) == TokenScore(rank, field, token, o, d)
      && (WeightMatches(seg, w, d) <==> TokenMeans(seg, field, token, o, d))
  {
    var q := BuildTokenQuery(field, token, o).value;
    TokenKeepsMeaning(seg, field, token, o, d);
    ScoringKeepsDocs(seg, q, true, d);
  }

  /** A token searched exactly scores as the engine ranks it; a token searched with a distance scores the boost alone. */
  lemma {:induction false} CompiledTokenScores(seg: Segment, rank: Ranking, field: string, token: string, o: MatchOptions, boost: real, d: nat)
    requires BuildTokenQuery(field, token, o).Ok?
    ensures Score(seg, rank, WeightOf(BuildTokenQuery(field, token, o).value, true), boost, d) ==
      if o.fuzziness == Some(0) || (o.fuzziness.None? && |token| <= 2) then boost * rank.term(field, token, d) else boost
  {
  }

  lemma {:induction false} TokenPartKept(
    seg: Segment, rank: Ranking, field: string, token: string, o: MatchOptions, cs: seq<Child>, i: nat, d: nat)
    requires ValidSegment(seg) && i < |cs|
    requires !cs[i].occur.MustNot? && BuildTokenQuery(field, token, o) == Ok(cs[i].query)
    ensures ClauseScore(seg, rank, WeightOf(BooleanQuery(cs), true), i, 1.0, d) == TokenPart(seg, rank, field, token, o, d)
  {
    TokenKeepsScore(seg, rank, field, token, o, d);
  }

  lemma {:induction false} TokensKeepScore(
    seg: Segment, rank: Ranking, field: string, tokens: seq<string>, o: MatchOptions, cs: seq<Child>, n: nat, d: nat)
    requires ValidSegment(seg) && |cs| == |tokens| && n <= |cs|
    requires forall i :: 0 <= i < |cs| ==> !cs[i].occur.MustNot? && BuildTokenQuery(field, tokens[i], o) == Ok(cs[i].query)
    ensures SumOfMatching(seg, rank, WeightOf(BooleanQuery(cs), true), n, 1.0, d) == TokensScore(seg, rank, field, tokens, o, n, d)
  {
    hide TokenMeans, TokenPart, ClauseScore, MeantDistance;
    if n > 0 {
      TokensKeepScore(seg, rank, field, tokens, o, cs, n - 1, d);
      TokenPartKept(seg, rank, field, tokens[n - 1], o, cs, n - 1, d);
    }
  }

  /** One field's score: the sum over its tokens, times the boost that is applied, which is the one asked for unless it is
      within one float step of 1. */
  lemma {:induction false} FieldKeepsScore(
    index: Index, seg: Segment, rank: Ranking, field: string, terms: string, o: MatchOptions, boost: Float, d: nat)
    requires ValidSegment(seg) && BuildFieldMatchQuery(index, field, terms, o, boost).Ok?
    requires FieldMeans(seg, field, index.analyze(terms), o, d)
    ensures Score(seg, rank, WeightOf(BuildFieldMatchQuery(index, field, terms, o, boost).value, true), 1.0, d)
         == Times(AppliedBoost(boost.value), FieldScore(seg, rank, field, index.analyze(terms), o, d))
    ensures var unboosted := FieldScore(seg, rank, field, index.analyze(terms), o, d);
      Score(seg, rank, WeightOf(BuildFieldMatchQuery(index, field, terms, o, boost).value, true), 1.0, d)
        == if boost.value < 8388607.0 / 8388608.0 || boost.value > 8388609.0 / 8388608.0 then Times(boost.value, unboosted) else unboosted
  {
    assert index.analyze(terms) != [];
    hide BuildTokenQuery, FieldMeans, TokenMeans, SumOfMatching, ClauseScore, WeightMatches, TokenPart, TokenScore;
    var tokens := index.analyze(terms);
    var q := CompiledField(index, field, terms, o, boost);
    if |tokens| == 1 {
      OneTokenKeepsScore(seg, rank, field, tokens, o, d);
    } else {
      TokensKeepScore(seg, rank, field, tokens, o, q.children, |q.children|, d);
    }
    BoostedScore(seg, rank, q, boost.value, d);
    Products(1.0, FieldScore(seg, rank, field, tokens, o, d), 1.0);
  }

  lemma {:induction false} CompiledField(index: Index, field: string, terms: string, o: MatchOptions, boost: Float) returns (q: Query)
    requires BuildFieldMatchQuery(index, field, terms, o, boost).Ok? && index.analyze(terms) != []
    ensures boost.Finite?
    ensures BuildFieldMatchQuery(index, field, terms, o, boost).value == if Abs(boost.value - 1.0) > EPSILON then BoostQuery(q, boost.value) else q
    ensures var tokens := index.analyze(terms);
      if |tokens| == 1 then BuildTokenQuery(field, tokens[0], o) == Ok(q)
      else
        && q.BooleanQuery? && |q.children| == |tokens|
        && forall i :: 0 <= i < |tokens| ==>
          !q.children[i].occur.MustNot? && BuildTokenQuery(field, tokens[i], o) == Ok(q.children[i].query)
  {
    var tokens := index.analyze(terms);
    q := if |tokens| == 1 then BuildTokenQuery(field, tokens[0], o).value
         else BooleanQuery(BuildTokens(field, tokens, o, if o.operator.Or? then Should else Must).value);
  }

  lemma {:induction false} OneTokenKeepsScore(seg: Segment, rank: Ranking, field: string, tokens: seq<string>, o: MatchOptions, d: nat)
    requires ValidSegment(seg) && |tokens| == 1 && BuildTokenQuery(field, tokens[0], o).Ok?
    requires FieldMeans(seg, field, tokens, o, d)
    ensures Score(seg, rank, WeightOf(BuildTokenQuery(field, tokens[0], o).value, true), 1.0, d) == FieldScore(seg, rank, field, tokens, o, d)
  {
    hide TokenMeans, Score, WeightMatches, BuildTokenQuery, MeantDistance, TokenScore;
    TokenKeepsScore(seg, rank, field, tokens[0], o, d);
    assert TokenMeans(seg, field, tokens[0], o, d);
    assert TokensScore(seg, rank, field, tokens, o, 1, d)
        == TokensScore(seg, rank, field, tokens, o, 0, d) + TokenPart(seg, rank, field, tokens[0], o, d);
  }

  /** Wrapping in a boost, or not when it is one float step from 1, scales the score by the applied boost. */
  lemma {:induction false} BoostedScore(seg: Segment, rank: Ranking, q: Query, boost: real, d: nat)
    ensures Score(seg, rank, WeightOf(if Abs(boost - 1.0) > EPSILON then BoostQuery(q, boost) else q, true), 1.0, d)
         == Times(AppliedBoost(boost), Score(seg, rank, WeightOf(q, true), 1.0, d))
  {
    BoostIsAppliedIff(boost);
    ScoringBuildsForScores(q);
    BoostMultipliesScore(seg, rank, WeightOf(q, true), boost, 1.0, d);
    Products(boost, 1.0, 1.0);
    Products(Score(seg, rank, WeightOf(q, true), 1.0, d), 1.0, 1.0);
  }

  /** A boost that is dropped because it is one float step from 1 shows in the score, unless the score is zero. */
  lemma {:induction false} FieldBoostIsExactIff(
    index: Index, seg: Segment, rank: Ranking, field: string, terms: string, o: MatchOptions, boost: Float, d: nat)
    requires ValidSegment(seg) && BuildFieldMatchQuery(index, field, terms, o, boost).Ok?
    requires FieldMeans(seg, field, index.analyze(terms), o, d)
    ensures var unboosted := FieldScore(seg, rank, field, index.analyze(terms), o, d);
      var score := Score(seg, rank, WeightOf(BuildFieldMatchQuery(index, field, terms, o, boost).value, true), 1.0, d);
      score == Times(boost.value, unboosted) <==>
        boost.value < 8388607.0 / 8388608.0 || boost.value > 8388609.0 / 8388608.0 || boost.value == 1.0 || unboosted == 0.0
  {
    var q := CompiledField(index, field, terms, o, boost);
    var unboosted := FieldScore(seg, rank, field, index.analyze(terms), o, d);
    FieldKeepsScore(index, seg, rank, field, terms, o, boost, d);
    SameProductIff(AppliedBoost(boost.value), boost.value, unboosted);
  }

  /** A query and a segment where it shows: the one token has a score of 1, the boost is one float step above 1. */
  lemma {:induction false} DroppedBoostShows() returns (index: Index, seg: Segment, rank: Ranking)
    ensures var o, boost := MatchOptions(Or, Some(0), 50, 0), Finite(8388609.0 / 8388608.0);
      && ValidSegment(seg) && BuildFieldMatchQuery(index, "text", "word", o, boost).Ok?
      && FieldMeans(seg, "text", index.analyze("word"), o, 0)
      && FieldScore(seg, rank, "text", index.analyze("word"), o, 0) == 1.0
      && Score(seg, rank, WeightOf(BuildFieldMatchQuery(index, "text", "word", o, boost).value, true), 1.0, 0) == 1.0
      && Times(boost.value, FieldScore(seg, rank, "text", index.analyze("word"), o, 0)) == 8388609.0 / 8388608.0
  {
    var o, boost := MatchOptions(Or, Some(0), 50, 0), Finite(8388609.0 / 8388608.0);
    index := Index(PADDED_CONFIG, name => true, text => [text], (field, text) => true);
    seg := OneDocSegment();
    rank := Ranking((field, token, d) => 1.0, (field, terms, slop, d) => 1.0);
    OneDocMatches("text", "word", o);
    assert index.analyze("word") == ["word"];
    assert TokensScore(seg, rank, "text", ["word"], o, 1, 0) == TokensScore(seg, rank, "text", ["word"], o, 0, 0) + 1.0;
    FieldKeepsScore(index, seg, rank, "text", "word", o, boost, 0);
    Products(1.0, 1.0, 1.0);
    Products(8388609.0 / 8388608.0, 1.0, 1.0);
  }

  /** A segment in which every term is in document 0. */
  function OneDocSegment(): (seg: Segment) {
    Segment(
      field => FuzzyAutomaton.Trie(false, FuzzyAutomaton.Leaf),
      field => [],
      (field, term) => TermEntry(term, [[0]]),
      (field, terms, slop, d) => false,
      (token, distance) => FuzzyAutomaton.Dfa(0, (s, b) => 0, s => false))
  }

  lemma {:induction false} OneDocMatches(field: string, token: string, o: MatchOptions)
    requires o.fuzziness == Some(0)
    ensures ValidSegment(OneDocSegment()) && TokenMeans(OneDocSegment(), field, token, o, 0)
  {
    assert Flatten([[0]]) == [0] + Flatten<nat>([]);
    assert 0 in Flatten([[0]]);
  }

  lemma {:induction false} SameProductIff(x: real, y: real, z: real)
    ensures Times(x, z) == Times(y, z) <==> x == y || z == 0.0
  {
    assert x * z - y * z == (x - y) * z;
  }

  // ---- Whole queries ----

  lemma {:induction false} FieldPartKept(
    index: Index, seg: Segment, rank: Ranking, t: Target, terms: string, o: MatchOptions, cs: seq<Child>, i: nat, d: nat)
    requires ValidSegment(seg) && i < |cs| && cs[i].occur.Should?
    requires BuildFieldMatchQuery(index, t.field, terms, o, t.boost) == Ok(cs[i].query)
    ensures ClauseScore(seg, rank, WeightOf(BooleanQuery(cs), true), i, 1.0, d) == FieldPart(seg, rank, t, index.analyze(terms), o, d)
  {
    FieldKeepsMeaning(index, seg, t.field, terms, o, t.boost, d);
    ScoringKeepsDocs(seg, cs[i].query, true, d);
    if FieldMeans(seg, t.field, index.analyze(terms), o, d) {
      FieldKeepsScore(index, seg, rank, t.field, terms, o, t.boost, d);
    }
  }

  lemma {:induction false} FieldsKeepScore(
    index: Index, seg: Segment, rank: Ranking, targets: seq<Target>, terms: string, o: MatchOptions, cs: seq<Child>, n: nat, d: nat)
    requires ValidSegment(seg) && |cs| == |targets| && n <= |cs|
    requires forall i :: 0 <= i < |cs| ==>
      cs[i].occur.Should? && BuildFieldMatchQuery(index, targets[i].field, terms, o, targets[i].boost) == Ok(cs[i].query)
    ensures SumOfMatching(seg, rank, WeightOf(BooleanQuery(cs), true), n, 1.0, d)
         == FieldsScore(seg, rank, targets, index.analyze(terms), o, n, d)
  {
    hide FieldMeans, FieldPart, ClauseScore, WeightMatches, BuildFieldMatchQuery;
    if n > 0 {
      FieldsKeepScore(index, seg, rank, targets, terms, o, cs, n - 1, d);
      FieldPartKept(index, seg, rank, targets[n - 1], terms, o, cs, n - 1, d);
    }
  }

  /** A single clause may stand for the disjunction of one: at a match it has the same score. */
  lemma {:induction false} ShortcutKeepsScore(seg: Segment, rank: Ranking, cs: seq<Child>, q: Query, d: nat)
    requires q == if |cs| == 1 then cs[0].query else BooleanQuery(cs)
    requires |cs| == 1 ==> cs[0].occur.Should? && Matches(seg, cs[0].query, d)
    ensures Score(seg, rank, WeightOf(q, true), 1.0, d) == SumOfMatching(seg, rank, WeightOf(BooleanQuery(cs), true), |cs|, 1.0, d)
  {
    if |cs| == 1 {
      var w := WeightOf(BooleanQuery(cs), true);
      ScoringKeepsDocs(seg, cs[0].query, true, d);
      assert SumOfMatching(seg, rank, w, 1, 1.0, d) == SumOfMatching(seg, rank, w, 0, 1.0, d) + ClauseScore(seg, rank, w, 0, 1.0, d);
    }
  }

  lemma {:induction false} CompiledMatch(index: Index, spec: QuerySpec) returns (targets: seq<Target>, cs: seq<Child>)
    requires spec.Match? && BuildQuery(index, spec).Ok?
    ensures targets == SameBoost(SearchedFields(index, spec.column), spec.boost)
    ensures BuildTargets(index, targets, spec.terms, spec.options) == Ok(cs)
    ensures BuildQuery(index, spec).value == if |cs| == 1 then cs[0].query else BooleanQuery(cs)
  {
    ResolvedAreSearched(index, spec.column);
    targets := SameBoost(SearchedFields(index, spec.column), spec.boost);
    cs := BuildTargets(index, targets, spec.terms, spec.options).value;
  }

  lemma {:induction false} MatchKeepsScore(index: Index, seg: Segment, rank: Ranking, spec: QuerySpec, d: nat)
    requires ValidSegment(seg) && spec.Match? && BuildQuery(index, spec).Ok? && Means(index, seg, spec, d)
    ensures Score(seg, rank, WeightOf(BuildQuery(index, spec).value, true), 1.0, d) == Worth(index, seg, rank, spec, d)
  {
    var targets, cs := CompiledMatch(index, spec);
    FieldsKeepScore(index, seg, rank, targets, spec.terms, spec.options, cs, |cs|, d);
    MatchKeepsMeaning(index, seg, spec, d);
    ShortcutKeepsScore(seg, rank, cs, BuildQuery(index, spec).value, d);
  }

  lemma {:induction false} CompiledMultiMatch(index: Index, spec: QuerySpec) returns (targets: seq<Target>, cs: seq<Child>)
    requires spec.MultiMatch? && BuildQuery(index, spec).Ok?
    ensures targets == OwnBoosts(NamesOf(index, spec.columns), spec.boosts)
    ensures BuildTargets(index, targets, spec.terms, spec.options) == Ok(cs)
    ensures BuildQuery(index, spec).value == BooleanQuery(cs)
  {
    hide BuildFieldMatchQuery, NamedField;
    var fields := ResolveAll(index, spec.columns).value;
    forall i | 0 <= i < |fields| ensures fields[i] == NameOf(index, spec.columns[i]) {
      ResolvedIsNamed(index, Some(spec.columns[i]));
    }
    assert fields == NamesOf(index, spec.columns);
    targets := OwnBoosts(fields, spec.boosts);
    cs := BuildTargets(index, targets, spec.terms, spec.options).value;
  }

  lemma {:induction false} MultiMatchKeepsScore(index: Index, seg: Segment, rank: Ranking, spec: QuerySpec, d: nat)
    requires ValidSegment(seg) && spec.MultiMatch? && BuildQuery(index, spec).Ok?
    ensures Score(seg, rank, WeightOf(BuildQuery(index, spec).value, true), 1.0, d) == Worth(index, seg, rank, spec, d)
  {
    var targets, cs := CompiledMultiMatch(index, spec);
    FieldsKeepScore(index, seg, rank, targets, spec.terms, spec.options, cs, |cs|, d);
  }

  lemma {:induction false} PhraseKeepsScore(index: Index, seg: Segment, rank: Ranking, spec: QuerySpec, d: nat)
    requires spec.MatchPhrase? && BuildQuery(index, spec).Ok?
    ensures Score(seg, rank, WeightOf(BuildQuery(index, spec).value, true), 1.0, d) == Worth(index, seg, rank, spec, d)
  {
    ResolvedIsNamed(index, spec.column);
    PhraseText.PhraseReadsBack(spec.terms, spec.slop);
    hide PhraseText.ReadPhrase, PhraseText.QueryText;
    Products(PhraseScore(rank, NamedField(index, spec.column).value, PhraseText.QueryText(spec.terms, spec.slop), d), 1.0, 1.0);
  }

  /** A demotion scales the positive score, exactly where the negative query means the document. */
  lemma {:induction false} DemotionKeepsScore(
    index: Index, seg: Segment, rank: Ranking, positive: Query, negative: Query, factor: real, spec: QuerySpec, d: nat)
    requires ValidSegment(seg) && spec.Boost? && spec.negativeBoost == Finite(factor)
    requires WeightMatches(seg, WeightOf(negative, false), d) <==> Means(index, seg, spec.negative, d)
    requires Score(seg, rank, WeightOf(positive, true), 1.0, d) == Worth(index, seg, rank, spec.positive, d)
    ensures Score(seg, rank, WeightOf(DemoteQuery(positive, negative, factor), true), 1.0, d) == Worth(index, seg, rank, spec, d)
  {
    hide Score, Worth, WeightOf, Means, WeightMatches, ValidSegment;
    WeightOfDemotion(positive, negative, factor);
    ScoreOfDemotion(seg, rank, WeightOf(positive, true), WeightOf(negative, false), factor, d);
    WorthOfBoost(index, seg, rank, spec, d);
  }

  lemma {:induction false} WeightOfDemotion(positive: Query, negative: Query, factor: real)
    ensures WeightOf(DemoteQuery(positive, negative, factor), true) == DemoteWeight(WeightOf(positive, true), WeightOf(negative, false), factor)
  {
  }

  lemma {:induction false} ScoreOfDemotion(seg: Segment, rank: Ranking, positive: Weight, negative: Weight, factor: real, d: nat)
    ensures Score(seg, rank, DemoteWeight(positive, negative, factor), 1.0, d)
         == Times(Score(seg, rank, positive, 1.0, d), DemoteFactor(seg, negative, factor, d))
  {
  }

  lemma {:induction false} WorthOfBoost(index: Index, seg: Segment, rank: Ranking, spec: QuerySpec, d: nat)
    requires spec.Boost? && spec.negativeBoost.Finite?
    ensures Worth(index, seg, rank, spec, d) == Times(
      Worth(index, seg, rank, spec.positive, d), if Means(index, seg, spec.negative, d) then spec.negativeBoost.value else 1.0)
  {
  }

  lemma {:induction false} ClausesWorthConcat(
    index: Index, seg: Segment, rank: Ranking, whole: QuerySpec, x: seq<Clause>, y: seq<Clause>, d: nat)
    requires forall i :: 0 <= i < |x| ==> x[i].query < whole
    requires forall i :: 0 <= i < |y| ==> y[i].query < whole
    ensures forall i :: 0 <= i < |x + y| ==> (x + y)[i].query < whole
    ensures ClausesWorth(index, seg, rank, whole, x + y, d)
         == ClausesWorth(index, seg, rank, whole, x, d) + ClausesWorth(index, seg, rank, whole, y, d)
    decreases |y|
  {
    hide Worth, Means;
    if y == [] {
      assert x + y == x;
    } else {
      var n := |y| - 1;
      ClausesWorthConcat(index, seg, rank, whole, x, y[..n], d);
      assert (x + y)[..|x + y| - 1] == x + y[..n];
    }
  }

  lemma {:induction false} TaggedWorth(
    index: Index, seg: Segment, rank: Ranking, whole: QuerySpec, occur: Occur, specs: seq<QuerySpec>, d: nat)
    requires forall i :: 0 <= i < |specs| ==> specs[i] < whole
    ensures forall i :: 0 <= i < |Tagged(occur, specs)| ==> Tagged(occur, specs)[i].query < whole
    ensures ClausesWorth(index, seg, rank, whole, Tagged(occur, specs), d)
         == if occur.MustNot? then 0.0 else ListWorth(index, seg, rank, whole, specs, d)
    decreases |specs|
  {
    hide Worth, Means;
    if specs != [] {
      var n := |specs| - 1;
      TaggedWorth(index, seg, rank, whole, occur, specs[..n], d);
      assert Tagged(occur, specs)[..n] == Tagged(occur, specs[..n]);
    }
  }

  /** Merging the four lists into one clause list neither drops, repeats nor retags a clause: the sum is the same. */
  lemma {:induction false} MergedClausesWorth(index: Index, seg: Segment, rank: Ranking, spec: QuerySpec, d: nat)
    requires spec.Boolean?
    ensures ClausesWorth(index, seg, rank, spec, Clauses(spec), d) == Worth(index, seg, rank, spec, d)
  {
    hide ClausesWorth, ListWorth, Means, Tagged;
    var should, must, mustNot := Tagged(Should, spec.should), Tagged(Must, spec.must), Tagged(MustNot, spec.mustNot);
    TaggedWorth(index, seg, rank, spec, Should, spec.should, d);
    TaggedWorth(index, seg, rank, spec, Must, spec.must, d);
    TaggedWorth(index, seg, rank, spec, MustNot, spec.mustNot, d);
    ClausesWorthConcat(index, seg, rank, spec, should, must, d);
    ClausesWorthConcat(index, seg, rank, spec, should + must, mustNot, d);
    ClausesWorthConcat(index, seg, rank, spec, should + must + mustNot, spec.queries, d);
  }

  lemma {:induction false} ClausesKeepScore(
    index: Index, seg: Segment, rank: Ranking, whole: QuerySpec, clauses: seq<Clause>, cs: seq<Child>, n: nat, d: nat)
    requires ValidSegment(seg) && |cs| == |clauses| && n <= |cs|
    requires forall i :: 0 <= i < |clauses| ==> clauses[i].query < whole
    requires forall i :: 0 <= i < |cs| ==> cs[i].occur == clauses[i].occur && BuildQuery(index, clauses[i].query) == Ok(cs[i].query)
    ensures SumOfMatching(seg, rank, WeightOf(BooleanQuery(cs), true), n, 1.0, d)
         == ClausesWorth(index, seg, rank, whole, clauses[..n], d)
    decreases whole, 0, n
  {
    hide Score, Worth, Means, BuildQuery, WeightMatches, Matches, ValidSegment;
    if n > 0 {
      var clause := clauses[n - 1];
      ClausesKeepScore(index, seg, rank, whole, clauses, cs, n - 1, d);
      assert clauses[..n][..n - 1] == clauses[..n - 1];
      CompilationKeepsMeaning(index, seg, clause.query, d);
      ScoringKeepsDocs(seg, cs[n - 1].query, true, d);
      if Means(index, seg, clause.query, d) {
        CompilationKeepsScores(index, seg, rank, clause.query, d);
      }
    }
  }

  /** Compilation preserves scores: at every document a query means, the compiled tree gives what the query says. */
  lemma {:induction false} CompilationKeepsScores(index: Index, seg: Segment, rank: Ranking, spec: QuerySpec, d: nat)
    requires ValidSegment(seg) && BuildQuery(index, spec).Ok? && Means(index, seg, spec, d)
    ensures Score(seg, rank, WeightOf(BuildQuery(index, spec).value, true), 1.0, d) == Worth(index, seg, rank, spec, d)
    decreases spec, 1
  {
    match spec {
      case Match(_, _, _, _) => MatchKeepsScore(index, seg, rank, spec, d);
      case MultiMatch(_, _, _, _) => MultiMatchKeepsScore(index, seg, rank, spec, d);
      case MatchPhrase(_, _, _) => PhraseKeepsScore(index, seg, rank, spec, d);
      case Boolean(_, _, _, _) => BooleanKeepsScore(index, seg, rank, spec, d);
      case Boost(positive, negative, negativeBoost) =>
        CompilationKeepsScores(index, seg, rank, positive, d);
        CompilationKeepsMeaning(index, seg, negative, d);
        var p, n := BuildQuery(index, positive).value, BuildQuery(index, negative).value;
        ScoringKeepsDocs(seg, n, false, d);
        DemotionKeepsScore(index, seg, rank, p, n, negativeBoost.value, spec, d);
    }
  }

  lemma {:induction false} BooleanKeepsScore(index: Index, seg: Segment, rank: Ranking, spec: QuerySpec, d: nat)
    requires ValidSegment(seg) && spec.Boolean? && BuildQuery(index, spec).Ok?
    ensures Score(seg, rank, WeightOf(BuildQuery(index, spec).value, true), 1.0, d) == Worth(index, seg, rank, spec, d)
    decreases spec, 0, |Clauses(spec)| + 1
  {
    hide BuildQuery, Clauses, SumOfMatching, ClausesWorth, ListWorth, Means;
    var clauses := Clauses(spec);
    var cs := CompiledBoolean(index, spec);
    ClausesKeepScore(index, seg, rank, spec, clauses, cs, |cs|, d);
    assert clauses[..|cs|] == clauses;
    MergedClausesWorth(index, seg, rank, spec, d);
  }
}
