/** Which documents of a segment a query means, and that compilation does not change them (index.rs). */
module QueryMeaning {
  import opened Base
  import opened QueryCompiler
  import opened FuzzyScorer
  import FuzzyAutomaton
  import PhraseText
  import Utf8

  /** One segment as the engine serves it: per field a dictionary, its terms as text, the postings of a term;
      the documents of a phrase with its slop; and the Levenshtein automaton of a token. */
  datatype Segment = Segment(
    dictionary: string -> FuzzyAutomaton.Trie,
    texts: string -> seq<string>,
    entry: (string, seq<byte>) -> TermEntry,
    phrase: (string, string, nat, nat) -> bool,
    dfa: (string, nat) -> FuzzyAutomaton.Dfa)

  /** The dictionary of a field holds the UTF-8 of its terms; automata have a rejecting sink. */
  ghost predicate ValidSegment(seg: Segment) {
    && (forall field :: FuzzyAutomaton.Terms(seg.dictionary(field)) == MapSeq(Utf8.Encode, seg.texts(field)))
    && (forall token, distance :: FuzzyAutomaton.ValidDfa(seg.dfa(token, distance)))
  }

  // ---- What a compiled tree matches ----

  function ExpandedEntries(seg: Segment, field: string, token: string, distance: nat, prefix: string): (r: seq<TermEntry>) {
    var a := FuzzyAutomaton.PrefixedDfaAutomaton(seg.dfa(token, distance), Utf8.Encode(prefix));
    MapSeq(t => seg.entry(field, t), FuzzyAutomaton.Search(a, seg.dictionary(field)))
  }

  /** A parsed query matches where the phrase read from its text does. */
  predicate PhraseMatches(seg: Segment, field: string, text: string, d: nat) {
    match PhraseText.ReadPhrase(text)
    case None => false
    case Some((terms, slop)) => seg.phrase(field, terms, slop, d)
  }

  /** The engine's contract: all Must, no MustNot, and some Should when there is no Must. */
  predicate Matches(seg: Segment, q: Query, d: nat) {
    match q
    case EmptyQuery => false
    case TermQuery(field, token) => d in Postings(seg.entry(field, Utf8.Encode(token)))
    case CappedFuzzyTermQuery(field, token, distance, prefix, cap) =>
      d in CappedUnion(ExpandedEntries(seg, field, token, distance, prefix), cap)
    case ParsedQuery(field, text) => PhraseMatches(seg, field, text, d)
    case BooleanQuery(cs) =>
      && (forall i :: 0 <= i < |cs| && cs[i].occur.Must? ==> Matches(seg, cs[i].query, d))
      && (forall i :: 0 <= i < |cs| && cs[i].occur.MustNot? ==> !Matches(seg, cs[i].query, d))
      && ((exists i :: 0 <= i < |cs| && cs[i].occur.Must?)
          || exists i :: 0 <= i < |cs| && cs[i].occur.Should? && Matches(seg, cs[i].query, d))
    case BoostQuery(inner, _) => Matches(seg, inner, d)
    case DemoteQuery(positive, _, _) => Matches(seg, positive, d)
  }

  // ---- What a query means ----

  /** The dictionary terms within the distance of a token that share its first `prefixLength` characters. */
  function SimilarTexts(seg: Segment, field: string, token: string, distance: nat, prefixLength: nat): (r: seq<string>) {
    var dfa := seg.dfa(token, distance);
    Filter(
      (text: string) => dfa.exact(FuzzyAutomaton.RunDfa(dfa, Utf8.Encode(text))) && Utf8.Take(token, prefixLength) <= text,
      seg.texts(field))
  }

  /** The distance a token is searched with: the one asked for, or one that grows with its number of characters. */
  function MeantDistance(o: MatchOptions, token: string): (r: nat)
    ensures o.fuzziness.Some? ==> r == o.fuzziness.value
    ensures o.fuzziness.None? ==> (r == 0 <==> |token| <= 2) && (r == 1 <==> 3 <= |token| <= 5) && (r == 2 <==> |token| >= 6)
  {
    match o.fuzziness
    case Some(n) => n
    case None => if |token| >= 6 then 2 else if |token| >= 3 then 1 else 0
  }

  predicate TokenMeans(seg: Segment, field: string, token: string, o: MatchOptions, d: nat) {
    var distance := MeantDistance(o, token);
    if distance == 0 then d in Postings(seg.entry(field, Utf8.Encode(token)))
    else
      var entries := MapSeq(text => seg.entry(field, Utf8.Encode(text)), SimilarTexts(seg, field, token, distance, o.prefixLength));
      d in CappedUnion(entries, o.maxExpansions)
  }

  /** Within one field: any token for Or, every token for And; no token matches nothing. */
  predicate FieldMeans(seg: Segment, field: string, tokens: seq<string>, o: MatchOptions, d: nat) {
    && tokens != []
    && match o.operator
       case Or => exists i :: 0 <= i < |tokens| && TokenMeans(seg, field, tokens[i], o, d)
       case And => forall i :: 0 <= i < |tokens| ==> TokenMeans(seg, field, tokens[i], o, d)
  }

  /** The fields a match searches: the named one, or all configured ones, trimmed as they are resolved. */
  function SearchedFields(index: Index, column: Option<string>): (r: seq<string>) {
    if GivenColumn(column).Some? then [GivenColumn(column).value] else MapSeq(f => NameOf(index, f), Fields(index))
  }

  function NameOf(index: Index, column: string): (r: string) {
    if NamedField(index, Some(column)).Some? then NamedField(index, Some(column)).value else ""
  }

  predicate Means(index: Index, seg: Segment, spec: QuerySpec, d: nat) {
    match spec
    case Match(column, terms, o, _) =>
      var fields := SearchedFields(index, column);
      exists i :: 0 <= i < |fields| && FieldMeans(seg, fields[i], index.analyze(terms), o, d)
    case MultiMatch(terms, columns, _, o) =>
      exists i :: 0 <= i < |columns| && FieldMeans(seg, NameOf(index, columns[i]), index.analyze(terms), o, d)
    case MatchPhrase(column, terms, slop) =>
      seg.phrase(if NamedField(index, column).Some? then NamedField(index, column).value else "", terms, slop, d)
    case Boolean(should, must, mustNot, queries) =>
      && (forall i :: 0 <= i < |must| ==> Means(index, seg, must[i], d))
      && (forall i :: 0 <= i < |queries| && queries[i].occur.Must? ==> Means(index, seg, queries[i].query, d))
      && (forall i :: 0 <= i < |mustNot| ==> !Means(index, seg, mustNot[i], d))
      && (forall i :: 0 <= i < |queries| && queries[i].occur.MustNot? ==> !Means(index, seg, queries[i].query, d))
      && (must != [] || (exists i :: 0 <= i < |queries| && queries[i].occur.Must?)
          || (exists i :: 0 <= i < |should| && Means(index, seg, should[i], d))
          || (exists i :: 0 <= i < |queries| && queries[i].occur.Should? && Means(index, seg, queries[i].query, d)))
    case Boost(positive, _, _) => Means(index, seg, positive, d)
  }

  // ---- Leaves ----

  lemma {:induction false} FilterOfEncoded(p: seq<byte> -> bool, q: string -> bool, texts: seq<string>)
    requires forall t :: t in texts ==> p(Utf8.Encode(t)) == q(t)
    ensures Filter(p, MapSeq(Utf8.Encode, texts)) == MapSeq(Utf8.Encode, Filter(q, texts))
  {
    if texts != [] {
      FilterOfEncoded(p, q, texts[1..]);
      assert MapSeq(Utf8.Encode, texts)[1..] == MapSeq(Utf8.Encode, texts[1..]);
      if q(texts[0]) {
        assert Filter(q, texts)[1..] == Filter(q, texts[1..]);
      }
    }
  }

  /** The automaton search over bytes finds exactly the similar texts, in dictionary order. */
  lemma {:induction false} SearchFindsSimilarTexts(seg: Segment, field: string, token: string, distance: nat, prefixLength: nat)
    requires ValidSegment(seg)
    ensures var a := FuzzyAutomaton.PrefixedDfaAutomaton(seg.dfa(token, distance), Utf8.Encode(Utf8.Take(token, prefixLength)));
      FuzzyAutomaton.Search(a, seg.dictionary(field)) == MapSeq(Utf8.Encode, SimilarTexts(seg, field, token, distance, prefixLength))
  {
    var prefix := Utf8.Take(token, prefixLength);
    var dfa := seg.dfa(token, distance);
    var a := FuzzyAutomaton.PrefixedDfaAutomaton(dfa, Utf8.Encode(prefix));
    FuzzyAutomaton.SearchIsFilter(a, seg.dictionary(field));
    var p := (t: seq<byte>) => a.dfa.exact(FuzzyAutomaton.RunDfa(a.dfa, t)) && a.prefix <= t;
    var q := (text: string) => dfa.exact(FuzzyAutomaton.RunDfa(dfa, Utf8.Encode(text))) && prefix <= text;
    forall t | t in seg.texts(field) ensures p(Utf8.Encode(t)) == q(t) {
      Utf8.BytePrefixIsCharPrefix(prefix, t);
    }
    FilterOfEncoded(p, q, seg.texts(field));
  }

  lemma {:induction false} MapOfMap(seg: Segment, field: string, texts: seq<string>)
    ensures MapSeq((t: seq<byte>) => seg.entry(field, t), MapSeq(Utf8.Encode, texts))
         == MapSeq((text: string) => seg.entry(field, Utf8.Encode(text)), texts)
  {
  }

  lemma {:induction false} TokenKeepsMeaning(seg: Segment, field: string, token: string, o: MatchOptions, d: nat)
    requires ValidSegment(seg) && BuildTokenQuery(field, token, o).Ok?
    ensures Matches(seg, BuildTokenQuery(field, token, o).value, d) <==> TokenMeans(seg, field, token, o, d)
  {
    var distance := MeantDistance(o, token);
    assert distance == Distance(o, token);
    if distance != 0 {
      SearchFindsSimilarTexts(seg, field, token, distance, o.prefixLength);
      MapOfMap(seg, field, SimilarTexts(seg, field, token, distance, o.prefixLength));
    }
  }

  // ---- Fields ----

  lemma {:induction false} UniformClauses(seg: Segment, cs: seq<Child>, occur: Occur, d: nat)
    requires cs != [] && !occur.MustNot? && forall i :: 0 <= i < |cs| ==> cs[i].occur == occur
    ensures occur.Should? ==> (Matches(seg, BooleanQuery(cs), d) <==> exists i :: 0 <= i < |cs| && Matches(seg, cs[i].query, d))
    ensures occur.Must? ==> (Matches(seg, BooleanQuery(cs), d) <==> forall i :: 0 <= i < |cs| ==> Matches(seg, cs[i].query, d))
  {
    assert cs[0].occur == occur;
  }

  lemma {:induction false} TokensKeepMeaning(seg: Segment, field: string, tokens: seq<string>, o: MatchOptions, d: nat)
    requires ValidSegment(seg) && |tokens| > 1
    requires var occur := if o.operator.Or? then Should else Must; BuildTokens(field, tokens, o, occur).Ok?
    ensures var occur := if o.operator.Or? then Should else Must;
      Matches(seg, BooleanQuery(BuildTokens(field, tokens, o, occur).value), d) <==> FieldMeans(seg, field, tokens, o, d)
  {
    var occur := if o.operator.Or? then Should else Must;
    var cs := BuildTokens(field, tokens, o, occur).value;
    forall i | 0 <= i < |tokens| ensures Matches(seg, cs[i].query, d) <==> TokenMeans(seg, field, tokens[i], o, d) {
      TokenKeepsMeaning(seg, field, tokens[i], o, d);
    }
    UniformClauses(seg, cs, occur, d);
  }

  /** One field's query means what the field means, whether there is no token, one, or several, boosted or not. */
  lemma {:induction false} FieldKeepsMeaning(index: Index, seg: Segment, field: string, terms: string, o: MatchOptions, boost: Float, d: nat)
    requires ValidSegment(seg) && BuildFieldMatchQuery(index, field, terms, o, boost).Ok?
    ensures Matches(seg, BuildFieldMatchQuery(index, field, terms, o, boost).value, d)
      <==> FieldMeans(seg, field, index.analyze(terms), o, d)
  {
    hide TokenMeans, BuildTokenQuery;
    var tokens := index.analyze(terms);
    if |tokens| == 1 {
      TokenKeepsMeaning(seg, field, tokens[0], o, d);
      var q := BuildTokenQuery(field, tokens[0], o).value;
      assert BuildFieldMatchQuery(index, field, terms, o, boost).value
          == if Abs(boost.value - 1.0) > EPSILON then BoostQuery(q, boost.value) else q;
    } else if |tokens| > 1 {
      TokensKeepMeaning(seg, field, tokens, o, d);
    }
  }

  lemma {:induction false} TargetsKeepMeaning(index: Index, seg: Segment, targets: seq<Target>, terms: string, o: MatchOptions, d: nat)
    requires ValidSegment(seg) && BuildTargets(index, targets, terms, o).Ok?
    ensures var cs := BuildTargets(index, targets, terms, o).value;
      && (forall i :: 0 <= i < |cs| ==> cs[i].occur.Should?)
      && (forall i :: 0 <= i < |cs| ==>
            (Matches(seg, cs[i].query, d) <==> FieldMeans(seg, targets[i].field, index.analyze(terms), o, d)))
  {
    forall i | 0 <= i < |targets|
      ensures Matches(seg, BuildTargets(index, targets, terms, o).value[i].query, d)
        <==> FieldMeans(seg, targets[i].field, index.analyze(terms), o, d)
    {
      FieldKeepsMeaning(index, seg, targets[i].field, terms, o, targets[i].boost, d);
    }
  }

  /** A disjunction of optional clauses matches when one of them does; a single one may stand for itself. */
  lemma {:induction false} ShouldsAreAUnion(seg: Segment, cs: seq<Child>, d: nat)
    requires forall i :: 0 <= i < |cs| ==> cs[i].occur.Should?
    ensures Matches(seg, BooleanQuery(cs), d) <==> exists i :: 0 <= i < |cs| && Matches(seg, cs[i].query, d)
    ensures |cs| == 1 ==> (Matches(seg, cs[0].query, d) <==> Matches(seg, BooleanQuery(cs), d))
  {
  }

  lemma {:induction false} ResolvedIsNamed(index: Index, column: Option<string>)
    requires ResolveTextField(index, column).Ok?
    ensures NamedField(index, column) == Some(ResolveTextField(index, column).value)
  {
  }

  lemma {:induction false} ResolvedAreSearched(index: Index, column: Option<string>)
    requires ResolveMatchFields(index, column).Ok?
    ensures ResolveMatchFields(index, column).value == SearchedFields(index, column)
  {
    var resolved := ResolveMatchFields(index, column).value;
    if GivenColumn(column).Some? {
      ResolvedIsNamed(index, column);
    } else {
      forall i | 0 <= i < |resolved| ensures resolved[i] == NameOf(index, Fields(index)[i]) {
        ResolvedIsNamed(index, Some(Fields(index)[i]));
      }
    }
  }

  lemma {:induction false} MatchKeepsMeaning(index: Index, seg: Segment, spec: QuerySpec, d: nat)
    requires ValidSegment(seg) && spec.Match? && BuildQuery(index, spec).Ok?
    ensures Matches(seg, BuildQuery(index, spec).value, d) <==> Means(index, seg, spec, d)
  {
    hide FieldMeans, BuildFieldMatchQuery, ResolveAll, ValidSegment;
    var fields := ResolveMatchFields(index, spec.column).value;
    ResolvedAreSearched(index, spec.column);
    var targets := SameBoost(fields, spec.boost);
    TargetsKeepMeaning(index, seg, targets, spec.terms, spec.options, d);
    var cs := BuildTargets(index, targets, spec.terms, spec.options).value;
    ShouldsAreAUnion(seg, cs, d);
    assert forall i :: 0 <= i < |cs| ==> targets[i].field == fields[i];
  }

  lemma {:induction false} MultiMatchKeepsMeaning(index: Index, seg: Segment, spec: QuerySpec, d: nat)
    requires ValidSegment(seg) && spec.MultiMatch? && BuildQuery(index, spec).Ok?
    ensures Matches(seg, BuildQuery(index, spec).value, d) <==> Means(index, seg, spec, d)
  {
    hide FieldMeans, BuildFieldMatchQuery, ValidSegment;
    var fields := ResolveAll(index, spec.columns).value;
    var targets := OwnBoosts(fields, spec.boosts);
    TargetsKeepMeaning(index, seg, targets, spec.terms, spec.options, d);
    var cs := BuildTargets(index, targets, spec.terms, spec.options).value;
    ShouldsAreAUnion(seg, cs, d);
    forall i | 0 <= i < |cs| ensures targets[i].field == NameOf(index, spec.columns[i]) {
      ResolvedIsNamed(index, Some(spec.columns[i]));
    }
  }

  // ---- Boolean queries ----

  /** The engine's reading of a clause list, with the meaning of the queries in place of their compiled trees. */
  predicate ClausesMean(index: Index, seg: Segment, clauses: seq<Clause>, d: nat) {
    && (forall i :: 0 <= i < |clauses| && clauses[i].occur.Must? ==> Means(index, seg, clauses[i].query, d))
    && (forall i :: 0 <= i < |clauses| && clauses[i].occur.MustNot? ==> !Means(index, seg, clauses[i].query, d))
    && ((exists i :: 0 <= i < |clauses| && clauses[i].occur.Must?)
        || exists i :: 0 <= i < |clauses| && clauses[i].occur.Should? && Means(index, seg, clauses[i].query, d))
  }

  predicate AllOf(specs: seq<QuerySpec>, p: QuerySpec -> bool) {
    forall i :: 0 <= i < |specs| ==> p(specs[i])
  }

  predicate AllTagged(clauses: seq<Clause>, occur: Occur, p: QuerySpec -> bool) {
    forall i :: 0 <= i < |clauses| && clauses[i].occur == occur ==> p(clauses[i].query)
  }

  lemma {:induction false} AllTaggedConcat(x: seq<Clause>, y: seq<Clause>, occur: Occur, p: QuerySpec -> bool)
    ensures AllTagged(x + y, occur, p) <==> AllTagged(x, occur, p) && AllTagged(y, occur, p)
  {
    assert forall i :: 0 <= i < |x| ==> (x + y)[i] == x[i];
    assert forall i :: 0 <= i < |y| ==> (x + y)[|x| + i] == y[i];
  }

  lemma {:induction false} AllTaggedOfOneTag(tag: Occur, specs: seq<QuerySpec>, occur: Occur, p: QuerySpec -> bool)
    ensures AllTagged(Tagged(tag, specs), occur, p) <==> (tag == occur ==> AllOf(specs, p))
  {
    assert forall i :: 0 <= i < |specs| ==> Tagged(tag, specs)[i].query == specs[i];
  }

  lemma {:induction false} AllTaggedMerged(spec: QuerySpec, occur: Occur, p: QuerySpec -> bool)
    requires spec.Boolean?
    ensures AllTagged(Clauses(spec), occur, p) <==>
      && AllOf(match occur case Should => spec.should case Must => spec.must case MustNot => spec.mustNot, p)
      && AllTagged(spec.queries, occur, p)
  {
    var x, y, z := Tagged(Should, spec.should), Tagged(Must, spec.must), Tagged(MustNot, spec.mustNot);
    AllTaggedConcat(x + y + z, spec.queries, occur, p);
    AllTaggedConcat(x + y, z, occur, p);
    AllTaggedConcat(x, y, occur, p);
    AllTaggedOfOneTag(Should, spec.should, occur, p);
    AllTaggedOfOneTag(Must, spec.must, occur, p);
    AllTaggedOfOneTag(MustNot, spec.mustNot, occur, p);
  }

  // The three tests a boolean query puts to its clauses
  function Holds(index: Index, seg: Segment, d: nat): (r: QuerySpec -> bool) {
    q => Means(index, seg, q, d)
  }

  function Fails(index: Index, seg: Segment, d: nat): (r: QuerySpec -> bool) {
    q => !Means(index, seg, q, d)
  }

  function Never(): (r: QuerySpec -> bool) {
    q => false
  }

  lemma {:induction false} ClausesMeanByTag(index: Index, seg: Segment, clauses: seq<Clause>, d: nat)
    ensures ClausesMean(index, seg, clauses, d) <==>
      && AllTagged(clauses, Must, Holds(index, seg, d))
      && AllTagged(clauses, MustNot, Fails(index, seg, d))
      && (!AllTagged(clauses, Must, Never()) || !AllTagged(clauses, Should, Fails(index, seg, d)))
  {
  }

  lemma {:induction false} BooleanMeansByTag(index: Index, seg: Segment, spec: QuerySpec, d: nat)
    requires spec.Boolean?
    ensures Means(index, seg, spec, d) <==>
      && AllOf(spec.must, Holds(index, seg, d)) && AllTagged(spec.queries, Must, Holds(index, seg, d))
      && AllOf(spec.mustNot, Fails(index, seg, d)) && AllTagged(spec.queries, MustNot, Fails(index, seg, d))
      && (!(AllOf(spec.must, Never()) && AllTagged(spec.queries, Must, Never()))
          || !(AllOf(spec.should, Fails(index, seg, d)) && AllTagged(spec.queries, Should, Fails(index, seg, d))))
  {
    hide Clauses;
    assert AllOf(spec.must, Never()) <==> spec.must == [] by {
      if spec.must != [] {
        assert !Never()(spec.must[0]);
      }
    }
  }

  /** Merging the four lists into one clause list keeps the meaning. */
  lemma {:induction false} MergedClausesMean(index: Index, seg: Segment, spec: QuerySpec, d: nat)
    requires spec.Boolean?
    ensures ClausesMean(index, seg, Clauses(spec), d) <==> Means(index, seg, spec, d)
  {
    AllTaggedMerged(spec, Must, Holds(index, seg, d));
    AllTaggedMerged(spec, MustNot, Fails(index, seg, d));
    AllTaggedMerged(spec, Should, Fails(index, seg, d));
    AllTaggedMerged(spec, Must, Never());
    ClausesMeanByTag(index, seg, Clauses(spec), d);
    BooleanMeansByTag(index, seg, spec, d);
  }

  lemma {:induction false} CompiledClausesMean(index: Index, seg: Segment, clauses: seq<Clause>, cs: seq<Child>, d: nat)
    requires |cs| == |clauses|
    requires forall i :: 0 <= i < |cs| ==> cs[i].occur == clauses[i].occur
    requires forall i :: 0 <= i < |cs| ==> (Matches(seg, cs[i].query, d) <==> Means(index, seg, clauses[i].query, d))
    ensures Matches(seg, BooleanQuery(cs), d) <==> ClausesMean(index, seg, clauses, d)
  {
  }

  /** Compilation preserves meaning: the compiled tree matches exactly the documents the query means. */
  lemma {:induction false} CompilationKeepsMeaning(index: Index, seg: Segment, spec: QuerySpec, d: nat)
    requires ValidSegment(seg) && BuildQuery(index, spec).Ok?
    ensures Matches(seg, BuildQuery(index, spec).value, d) <==> Means(index, seg, spec, d)
    decreases spec
  {
    hide BuildQuery, Means, Matches, ValidSegment, ClausesMean;
    match spec {
      case Match(_, _, _, _) => MatchKeepsMeaning(index, seg, spec, d);
      case MultiMatch(_, _, _, _) => MultiMatchKeepsMeaning(index, seg, spec, d);
      case MatchPhrase(_, _, _) => PhraseKeepsMeaning(index, seg, spec, d);
      case Boolean(_, _, _, _) =>
        var clauses := Clauses(spec);
        var cs := CompiledBoolean(index, spec);
        forall i | 0 <= i < |clauses| ensures Matches(seg, cs[i].query, d) <==> Means(index, seg, clauses[i].query, d) {
          CompilationKeepsMeaning(index, seg, clauses[i].query, d);
        }
        CompiledClausesMean(index, seg, clauses, cs, d);
        MergedClausesMean(index, seg, spec, d);
      case Boost(positive, _, _) =>
        CompiledBoost(index, spec);
        CompilationKeepsMeaning(index, seg, positive, d);
        BoostMeansItsPositive(index, seg, spec, BuildQuery(index, spec).value, d);
    }
  }

  lemma {:induction false} PhraseKeepsMeaning(index: Index, seg: Segment, spec: QuerySpec, d: nat)
    requires spec.MatchPhrase? && BuildQuery(index, spec).Ok?
    ensures Matches(seg, BuildQuery(index, spec).value, d) <==> Means(index, seg, spec, d)
  {
    ResolvedIsNamed(index, spec.column);
    PhraseText.PhraseReadsBack(spec.terms, spec.slop);
    hide PhraseText.ReadPhrase, PhraseText.QueryText;
  }

  lemma {:induction false} BoostMeansItsPositive(index: Index, seg: Segment, spec: QuerySpec, q: Query, d: nat)
    requires spec.Boost? && q.DemoteQuery?
    ensures Matches(seg, q, d) <==> Matches(seg, q.positive, d)
    ensures Means(index, seg, spec, d) <==> Means(index, seg, spec.positive, d)
  {
  }
}
