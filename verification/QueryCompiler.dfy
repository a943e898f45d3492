/** The query language and its compilation to an engine query tree (query.rs, `build_query` of index.rs). */
module QueryCompiler {
  import opened Base
  import opened Dedup
  import IndexConfig
  import PhraseText
  import TokenizerOptions
  import Utf8

  // ---- The query language ----

  /** A 32-bit float as far as the compiler looks at it. */
  datatype Float = Finite(value: real) | NotFinite

  datatype MatchOperator = Or | And

  datatype Occur = Should | Must | MustNot

  datatype Clause = Clause(occur: Occur, query: QuerySpec)

  datatype QuerySpec =
    | Match(column: Option<string>, terms: string, options: MatchOptions, boost: Float)
    | MultiMatch(terms: string, columns: seq<string>, boosts: seq<Float>, options: MatchOptions)
    | MatchPhrase(column: Option<string>, terms: string, slop: u32)
    | Boolean(should: seq<QuerySpec>, must: seq<QuerySpec>, mustNot: seq<QuerySpec>, queries: seq<Clause>)
    | Boost(positive: QuerySpec, negative: QuerySpec, negativeBoost: Float)

  /** `fuzziness` absent means automatic. */
  datatype MatchOptions = MatchOptions(operator: MatchOperator, fuzziness: Option<nat>, maxExpansions: usize, prefixLength: u32)

  // ---- The compiled tree ----

  datatype Child = Child(occur: Occur, query: Query)

  datatype Query =
    | EmptyQuery
    | TermQuery(field: string, token: string)
    | CappedFuzzyTermQuery(field: string, token: string, distance: nat, prefix: string, maxExpansions: usize)
    | ParsedQuery(field: string, text: string)
    | BooleanQuery(children: seq<Child>)
    | BoostQuery(inner: Query, factor: real)
    | DemoteQuery(positive: Query, negative: Query, factor: real)

  /** What compilation asks the engine: the schema, the analyzer, and whether its parser takes a phrase text. */
  datatype Index = Index(
    config: IndexConfig.Config,
    hasField: string -> bool,
    analyze: string -> seq<string>,
    parses: (string, string) -> bool)

  function Fields(index: Index): (r: seq<string>) {
    index.config.IndexedTextFields()
  }

  // ---- Validators and resolvers ----

  predicate MatchOptionsValid(o: MatchOptions) {
    && (o.fuzziness.None? || o.fuzziness.value <= 2)
    && o.maxExpansions != 0
  }

  predicate BoostValid(boost: Float) {
    boost.Finite? && boost.value > 0.0
  }

  predicate NegativeBoostValid(boost: Float) {
    boost.Finite? && 0.0 <= boost.value <= 1.0
  }

  function Require(condition: bool): (r: Result<()>) {
    if condition then Ok(()) else Err(InvalidQuery)
  }

  /** The column as given, trimmed; a blank one counts as absent. */
  function GivenColumn(column: Option<string>): (r: Option<string>) {
    match column
    case None => None
    case Some(c) => if Trim(c) == "" then None else Some(Trim(c))
  }

  function ResolveTextField(index: Index, column: Option<string>): (r: Result<string>) {
    var name :-
      match GivenColumn(column)
      case Some(c) => Ok(c)
      case None => if |Fields(index)| == 1 then Ok(Fields(index)[0]) else Err(InvalidQuery);
    if name !in Fields(index) || !index.hasField(name) then Err(InvalidQuery) else Ok(name)
  }

  function ResolveAll(index: Index, names: seq<string>): (r: Result<seq<string>>)
    ensures r.Ok? ==> |r.value| == |names|
    ensures r.Ok? ==> forall i :: 0 <= i < |names| ==> ResolveTextField(index, Some(names[i])) == Ok(r.value[i])
    ensures r.Ok? <==> forall i :: 0 <= i < |names| ==> ResolveTextField(index, Some(names[i])).Ok?
  {
    if names == [] then Ok([])
    else
      var n := |names| - 1;
      var init :- ResolveAll(index, names[..n]);
      var last :- ResolveTextField(index, Some(names[n]));
      Ok(init + [last])
  }

  function ResolveMatchFields(index: Index, column: Option<string>): (r: Result<seq<string>>) {
    if GivenColumn(column).Some? then
      var field :- ResolveTextField(index, column);
      Ok([field])
    else ResolveAll(index, Fields(index))
  }

  // ---- Leaves ----

  function AutoFuzziness(token: string): (r: nat) {
    if |token| <= 2 then 0 else if |token| <= 5 then 1 else 2
  }

  function Distance(o: MatchOptions, token: string): (r: nat) {
    if o.fuzziness.Some? then o.fuzziness.value else AutoFuzziness(token)
  }

  function BuildTokenQuery(field: string, token: string, o: MatchOptions): (r: Result<Query>) {
    var distance := Distance(o, token);
    if distance == 0 then Ok(TermQuery(field, token))
    else if distance > 2 then Err(InvalidQuery)
    else Ok(CappedFuzzyTermQuery(field, token, distance, Utf8.Take(token, o.prefixLength), o.maxExpansions))
  }

  /** What a token compiles to: a term or a fuzzy term of the distance asked for; where none is, the distance follows the
      number of characters. A fuzzy term must share the first `prefixLength` characters. */
  lemma {:induction false} TokenCompilesTo(field: string, token: string, o: MatchOptions)
    ensures var r := BuildTokenQuery(field, token, o);
      var prefix := if o.prefixLength < |token| then token[..o.prefixLength] else token;
      && (o.fuzziness.None? ==>
            && (r == Ok(TermQuery(field, token)) <==> |token| <= 2)
            && (r == Ok(CappedFuzzyTermQuery(field, token, 1, prefix, o.maxExpansions)) <==> 3 <= |token| <= 5)
            && (r == Ok(CappedFuzzyTermQuery(field, token, 2, prefix, o.maxExpansions)) <==> |token| >= 6))
      && (o.fuzziness == Some(0) ==> r == Ok(TermQuery(field, token)))
      && (o.fuzziness.Some? && 1 <= o.fuzziness.value <= 2 ==>
            r == Ok(CappedFuzzyTermQuery(field, token, o.fuzziness.value, prefix, o.maxExpansions)))
      && (o.fuzziness.Some? && o.fuzziness.value >= 3 ==> r == Err(InvalidQuery))
  {
    assert token[..|token|] == token;
  }

  function BuildTokens(field: string, tokens: seq<string>, o: MatchOptions, occur: Occur): (r: Result<seq<Child>>)
    ensures r.Ok? ==> |r.value| == |tokens|
    ensures r.Ok? ==> forall i :: 0 <= i < |tokens| ==>
      r.value[i].occur == occur && BuildTokenQuery(field, tokens[i], o) == Ok(r.value[i].query)
    ensures MatchOptionsValid(o) ==> r.Ok?
  {
    if tokens == [] then Ok([])
    else
      var n := |tokens| - 1;
      var init :- BuildTokens(field, tokens[..n], o, occur);
      var last :- BuildTokenQuery(field, tokens[n], o);
      Ok(init + [Child(occur, last)])
  }

  // f32::EPSILON
  const EPSILON: real := 1.0 / 8388608.0

  function Abs(x: real): (r: real) {
    if x < 0.0 then -x else x
  }

  /** One float step is 1/8388608. */
  lemma {:induction false} BoostIsAppliedIff(boost: real)
    ensures Abs(boost - 1.0) > EPSILON <==> boost < 8388607.0 / 8388608.0 || boost > 8388609.0 / 8388608.0
  {
  }

  function BuildFieldMatchQuery(index: Index, field: string, terms: string, o: MatchOptions, boost: Float): (r: Result<Query>) {
    var _ :- Require(BoostValid(boost));
    var tokens := index.analyze(terms);
    var query :-
      if tokens == [] then Ok(EmptyQuery)
      else if |tokens| == 1 then BuildTokenQuery(field, tokens[0], o)
      else
        var children :- BuildTokens(field, tokens, o, if o.operator.Or? then Should else Must);
        Ok(BooleanQuery(children));
    Ok(if Abs(boost.value - 1.0) > EPSILON then BoostQuery(query, boost.value) else query)
  }

  /** A field to search and the boost of its matches. */
  datatype Target = Target(field: string, boost: Float)

  function BuildTargets(index: Index, targets: seq<Target>, terms: string, o: MatchOptions): (r: Result<seq<Child>>)
    ensures r.Ok? ==> |r.value| == |targets|
    ensures r.Ok? ==> forall i :: 0 <= i < |targets| ==>
      r.value[i].occur == Should && BuildFieldMatchQuery(index, targets[i].field, terms, o, targets[i].boost) == Ok(r.value[i].query)
    ensures MatchOptionsValid(o) ==> (r.Ok? <==> forall i :: 0 <= i < |targets| ==> BoostValid(targets[i].boost))
  {
    if targets == [] then Ok([])
    else
      var n := |targets| - 1;
      var init :- BuildTargets(index, targets[..n], terms, o);
      var last :- BuildFieldMatchQuery(index, targets[n].field, terms, o, targets[n].boost);
      Ok(init + [Child(Should, last)])
  }

  function SameBoost(fields: seq<string>, boost: Float): (targets: seq<Target>)
    ensures |targets| == |fields| && forall i :: 0 <= i < |fields| ==> targets[i] == Target(fields[i], boost)
  {
    seq(|fields|, i requires 0 <= i < |fields| => Target(fields[i], boost))
  }

  function OwnBoosts(fields: seq<string>, boosts: seq<Float>): (targets: seq<Target>)
    ensures |targets| == |fields|
    ensures forall i :: 0 <= i < |fields| ==> targets[i] == Target(fields[i], if i < |boosts| then boosts[i] else Finite(1.0))
  {
    seq(|fields|, i requires 0 <= i < |fields| => Target(fields[i], if i < |boosts| then boosts[i] else Finite(1.0)))
  }

  // ---- The compiler ----

  function Tagged(occur: Occur, specs: seq<QuerySpec>): (r: seq<Clause>)
    ensures |r| == |specs| && forall i :: 0 <= i < |specs| ==> r[i] == Clause(occur, specs[i])
  {
    seq(|specs|, i requires 0 <= i < |specs| => Clause(occur, specs[i]))
  }

  /** All clauses of a boolean query, in the order they are compiled. */
  function Clauses(spec: QuerySpec): (clauses: seq<Clause>)
    requires spec.Boolean?
    ensures forall i :: 0 <= i < |clauses| ==> clauses[i].query < spec
  {
    Tagged(Should, spec.should) + Tagged(Must, spec.must) + Tagged(MustNot, spec.mustNot) + spec.queries
  }

  predicate HasPositiveClause(spec: QuerySpec)
    requires spec.Boolean?
  {
    spec.should != [] || spec.must != [] || exists i :: 0 <= i < |spec.queries| && !spec.queries[i].occur.MustNot?
  }

  function BuildQuery(index: Index, spec: QuerySpec): (r: Result<Query>)
    decreases spec, 1
  {
    match spec
    case Match(column, terms, o, boost) =>
      var _ :- Require(MatchOptionsValid(o));
      var fields :- ResolveMatchFields(index, column);
      var children :- BuildTargets(index, SameBoost(fields, boost), terms, o);
      Ok(if |children| == 1 then children[0].query else BooleanQuery(children))
    case MultiMatch(terms, columns, boosts, o) =>
      var _ :- Require(columns != []);
      var _ :- Require(boosts == [] || |boosts| == |columns|);
      var _ :- Require(forall i :: 0 <= i < |boosts| ==> BoostValid(boosts[i]));
      var _ :- Require(MatchOptionsValid(o));
      var fields :- ResolveAll(index, columns);
      var children :- BuildTargets(index, OwnBoosts(fields, boosts), terms, o);
      Ok(BooleanQuery(children))
    case MatchPhrase(column, terms, slop) =>
      var _ :- Require(index.config.tokenizer.withPosition);
      var field :- ResolveTextField(index, column);
      var text := PhraseText.QueryText(terms, slop);
      if index.parses(field, text) then Ok(ParsedQuery(field, text)) else Err(InvalidQuery)
    case Boolean(_, _, _, _) =>
      var _ :- Require(Clauses(spec) != []);
      var _ :- Require(HasPositiveClause(spec));
      var children :- BuildClauses(index, spec, Clauses(spec));
      Ok(BooleanQuery(children))
    case Boost(positive, negative, negativeBoost) =>
      var _ :- Require(NegativeBoostValid(negativeBoost));
      var p :- BuildQuery(index, positive);
      var n :- BuildQuery(index, negative);
      Ok(DemoteQuery(p, n, negativeBoost.value))
  }

  function BuildClauses(index: Index, ghost whole: QuerySpec, clauses: seq<Clause>): (r: Result<seq<Child>>)
    requires forall i :: 0 <= i < |clauses| ==> clauses[i].query < whole
    ensures r.Ok? ==> |r.value| == |clauses|
    ensures r.Ok? ==> forall i :: 0 <= i < |clauses| ==>
      r.value[i].occur == clauses[i].occur && BuildQuery(index, clauses[i].query) == Ok(r.value[i].query)
    ensures r.Ok? <==> forall i :: 0 <= i < |clauses| ==> BuildQuery(index, clauses[i].query).Ok?
    decreases whole, 0, |clauses|
  {
    if clauses == [] then Ok([])
    else
      var n := |clauses| - 1;
      var init :- BuildClauses(index, whole, clauses[..n]);
      var last :- BuildQuery(index, clauses[n].query);
      Ok(init + [Child(clauses[n].occur, last)])
  }

  // ---- When compilation succeeds ----

  /** The field a column names: itself, trimmed, or the only field there is when it is absent. */
  function NamedField(index: Index, column: Option<string>): (r: Option<string>) {
    if GivenColumn(column).Some? then GivenColumn(column)
    else if |Fields(index)| == 1 then Some(Fields(index)[0]) else None
  }

  /** The column names a configured field of the schema. */
  predicate Resolves(index: Index, column: Option<string>) {
    var name := NamedField(index, column);
    name.Some? && name.value in Fields(index) && index.hasField(name.value)
  }

  /** Validity, stated on the query alone: options in range, columns known, clauses present, on every nested node. */
  predicate ValidSpec(index: Index, spec: QuerySpec) {
    match spec
    case Match(column, _, o, boost) =>
      && MatchOptionsValid(o)
      && BoostValid(boost)
      && (if GivenColumn(column).Some? then Resolves(index, column)
          else forall f :: f in Fields(index) ==> Resolves(index, Some(f)))
    case MultiMatch(_, columns, boosts, o) =>
      && columns != []
      && (boosts == [] || |boosts| == |columns|)
      && (forall i :: 0 <= i < |boosts| ==> BoostValid(boosts[i]))
      && MatchOptionsValid(o)
      && forall c :: c in columns ==> Resolves(index, Some(c))
    case MatchPhrase(column, terms, slop) =>
      && index.config.tokenizer.withPosition
      && Resolves(index, column)
      && index.parses(NamedField(index, column).value, PhraseText.QueryText(terms, slop))
    case Boolean(should, must, mustNot, queries) =>
      && (should != [] || must != [] || exists i :: 0 <= i < |queries| && !queries[i].occur.MustNot?)
      && (forall i :: 0 <= i < |should| ==> ValidSpec(index, should[i]))
      && (forall i :: 0 <= i < |must| ==> ValidSpec(index, must[i]))
      && (forall i :: 0 <= i < |mustNot| ==> ValidSpec(index, mustNot[i]))
      && (forall i :: 0 <= i < |queries| ==> ValidSpec(index, queries[i].query))
    case Boost(positive, negative, negativeBoost) =>
      NegativeBoostValid(negativeBoost) && ValidSpec(index, positive) && ValidSpec(index, negative)
  }

  lemma {:induction false} ResolvesIff(index: Index, column: Option<string>)
    ensures ResolveTextField(index, column).Ok? <==> Resolves(index, column)
  {
  }

  lemma {:induction false} ResolveAllIff(index: Index, names: seq<string>)
    ensures ResolveAll(index, names).Ok? <==> forall f :: f in names ==> Resolves(index, Some(f))
  {
    forall i | 0 <= i < |names| ensures ResolveTextField(index, Some(names[i])).Ok? <==> Resolves(index, Some(names[i])) {
      ResolvesIff(index, Some(names[i]));
    }
    if forall f :: f in names ==> Resolves(index, Some(f)) {
      assert forall i :: 0 <= i < |names| ==> names[i] in names;
    }
  }

  lemma {:induction false} MatchTargetsCompileIff(index: Index, fields: seq<string>, terms: string, o: MatchOptions, boost: Float)
    requires MatchOptionsValid(o) && fields != []
    ensures BuildTargets(index, SameBoost(fields, boost), terms, o).Ok? <==> BoostValid(boost)
  {
    assert SameBoost(fields, boost)[0].boost == boost;
  }

  lemma {:induction false} MatchCompilesIff(index: Index, spec: QuerySpec)
    requires spec.Match? && Fields(index) != []
    ensures BuildQuery(index, spec).Ok? <==> ValidSpec(index, spec)
  {
    ResolvesIff(index, spec.column);
    ResolveAllIff(index, Fields(index));
    var resolved := ResolveMatchFields(index, spec.column);
    if MatchOptionsValid(spec.options) && resolved.Ok? {
      MatchTargetsCompileIff(index, resolved.value, spec.terms, spec.options, spec.boost);
    }
  }

  lemma {:induction false} MultiMatchCompilesIff(index: Index, spec: QuerySpec)
    requires spec.MultiMatch?
    ensures BuildQuery(index, spec).Ok? <==> ValidSpec(index, spec)
  {
    ResolveAllIff(index, spec.columns);
  }

  predicate EachValid(index: Index, clauses: seq<Clause>) {
    forall i :: 0 <= i < |clauses| ==> ValidSpec(index, clauses[i].query)
  }

  lemma {:induction false} EachValidConcat(index: Index, x: seq<Clause>, y: seq<Clause>)
    ensures EachValid(index, x + y) <==> EachValid(index, x) && EachValid(index, y)
  {
    hide ValidSpec;
    if EachValid(index, x + y) {
      assert forall i :: 0 <= i < |x| ==> (x + y)[i] == x[i];
      assert forall i :: 0 <= i < |y| ==> (x + y)[|x| + i] == y[i];
    }
  }

  lemma {:induction false} EachValidTagged(index: Index, occur: Occur, specs: seq<QuerySpec>)
    ensures EachValid(index, Tagged(occur, specs)) <==> forall i :: 0 <= i < |specs| ==> ValidSpec(index, specs[i])
  {
    hide ValidSpec;
    assert forall i :: 0 <= i < |specs| ==> Tagged(occur, specs)[i].query == specs[i];
  }

  lemma {:induction false} ClausesCover(index: Index, spec: QuerySpec)
    requires spec.Boolean?
    ensures EachValid(index, Clauses(spec)) <==>
      && (forall i :: 0 <= i < |spec.should| ==> ValidSpec(index, spec.should[i]))
      && (forall i :: 0 <= i < |spec.must| ==> ValidSpec(index, spec.must[i]))
      && (forall i :: 0 <= i < |spec.mustNot| ==> ValidSpec(index, spec.mustNot[i]))
      && (forall i :: 0 <= i < |spec.queries| ==> ValidSpec(index, spec.queries[i].query))
  {
    hide ValidSpec, Tagged;
    var should, must, mustNot := Tagged(Should, spec.should), Tagged(Must, spec.must), Tagged(MustNot, spec.mustNot);
    EachValidTagged(index, Should, spec.should);
    EachValidTagged(index, Must, spec.must);
    EachValidTagged(index, MustNot, spec.mustNot);
    EachValidConcat(index, should, must);
    EachValidConcat(index, should + must, mustNot);
    EachValidConcat(index, should + must + mustNot, spec.queries);
  }

  /** Compilation succeeds exactly on valid queries. */
  lemma {:induction false} CompilesIffValid(index: Index, spec: QuerySpec)
    requires Fields(index) != []
    ensures BuildQuery(index, spec).Ok? <==> ValidSpec(index, spec)
    decreases spec
  {
    match spec {
      case Match(_, _, _, _) => MatchCompilesIff(index, spec);
      case MultiMatch(_, _, _, _) => MultiMatchCompilesIff(index, spec);
      case MatchPhrase(column, _, _) => ResolvesIff(index, column);
      case Boolean(_, _, _, _) =>
        forall i | 0 <= i < |Clauses(spec)|
          ensures BuildQuery(index, Clauses(spec)[i].query).Ok? <==> ValidSpec(index, Clauses(spec)[i].query)
        {
          CompilesIffValid(index, Clauses(spec)[i].query);
        }
        ClausesCover(index, spec);
      case Boost(positive, negative, _) =>
        CompilesIffValid(index, positive);
        CompilesIffValid(index, negative);
    }
  }

  // ---- The conditions in full, one kind of query at a time ----

  /** The fields are the configured names, each once, in the order they are first listed. */
  lemma {:induction false} FieldsAreListedOnce(index: Index)
    ensures InFirstOccurrenceOrder(index.config.textFields, Fields(index))
  {
    DedupedKeepsFirstOccurrences(index.config.textFields);
  }

  /** A column resolves to itself without its outer blanks, a blank or absent one to the only configured field; either
      must be configured and known to the schema. */
  lemma {:induction false} ResolvesTo(index: Index, column: Option<string>, f: string)
    ensures ResolveTextField(index, column) == Ok(f) <==>
      && f in index.config.textFields && index.hasField(f)
      && if column.Some? && Trim(column.value) != "" then f == Trim(column.value) else forall g :: g in index.config.textFields ==> g == f
  {
    hide Trim;
    FieldsAreListedOnce(index);
    var fields := Fields(index);
    if f in fields && forall g :: g in index.config.textFields ==> g == f {
      OnlyMember(fields, f);
    } else if |fields| == 1 {
      assert fields[0] in fields;
      assert forall g :: g in fields ==> g == fields[0];
    }
    hide Deduped, Fields;
  }

  lemma {:induction false} OnlyMember(fields: seq<string>, f: string)
    requires Distinct(fields) && f in fields && forall g :: g in fields ==> g == f
    ensures fields == [f]
  {
    DistinctIffAsManyElements(fields);
    assert Elements(fields) == {f};
    assert fields[0] in fields;
  }

  lemma {:induction false} MatchCompilesWhen(index: Index, spec: QuerySpec)
    requires spec.Match? && index.config.textFields != []
    ensures BuildQuery(index, spec).Ok? <==>
      && (spec.options.fuzziness.Some? ==> spec.options.fuzziness.value <= 2) && spec.options.maxExpansions >= 1
      && spec.boost.Finite? && spec.boost.value > 0.0
      && if spec.column.Some? && Trim(spec.column.value) != "" then ResolveTextField(index, spec.column).Ok?
         else forall f :: f in index.config.textFields ==> ResolveTextField(index, Some(f)).Ok?
  {
    FieldsAreListedOnce(index);
    assert index.config.textFields[0] in Fields(index);
    MatchCompilesIff(index, spec);
    ResolvesIff(index, spec.column);
    forall f ensures ResolveTextField(index, Some(f)).Ok? <==> Resolves(index, Some(f)) {
      ResolvesIff(index, Some(f));
    }
    hide ResolveTextField, Resolves, BuildQuery, Trim, Fields;
  }

  lemma {:induction false} MultiMatchCompilesWhen(index: Index, spec: QuerySpec)
    requires spec.MultiMatch?
    ensures BuildQuery(index, spec).Ok? <==>
      && spec.columns != [] && (spec.boosts == [] || |spec.boosts| == |spec.columns|)
      && (forall b :: b in spec.boosts ==> b.Finite? && b.value > 0.0)
      && (spec.options.fuzziness.Some? ==> spec.options.fuzziness.value <= 2) && spec.options.maxExpansions >= 1
      && forall c :: c in spec.columns ==> ResolveTextField(index, Some(c)).Ok?
  {
    MultiMatchCompilesIff(index, spec);
    forall f ensures ResolveTextField(index, Some(f)).Ok? <==> Resolves(index, Some(f)) {
      ResolvesIff(index, Some(f));
    }
    hide ResolveTextField, Resolves, BuildQuery;
    assert (forall b :: b in spec.boosts ==> BoostValid(b)) <==> forall i :: 0 <= i < |spec.boosts| ==> BoostValid(spec.boosts[i]);
  }

  /** A phrase compiles to its quoted text in the resolved field, if positions are indexed and the engine takes the text. */
  lemma {:induction false} PhraseCompilesTo(index: Index, spec: QuerySpec, field: string, text: string)
    requires spec.MatchPhrase?
    ensures BuildQuery(index, spec) == Ok(ParsedQuery(field, text)) <==>
      && index.config.tokenizer.withPosition
      && ResolveTextField(index, spec.column) == Ok(field)
      && text == PhraseText.QueryText(spec.terms, spec.slop) && index.parses(field, text)
    ensures BuildQuery(index, spec).Ok? ==> BuildQuery(index, spec).value.ParsedQuery?
  {
    hide ResolveTextField, PhraseText.QueryText;
  }

  /** A boolean query needs a clause that is not prohibited, and all its clauses to compile. */
  lemma {:induction false} BooleanCompilesWhen(index: Index, spec: QuerySpec)
    requires spec.Boolean?
    ensures BuildQuery(index, spec).Ok? <==>
      && (spec.should != [] || spec.must != [] || exists c :: c in spec.queries && c.occur in {Should, Must})
      && (forall q :: q in spec.should || q in spec.must || q in spec.mustNot ==> BuildQuery(index, q).Ok?)
      && (forall c :: c in spec.queries ==> BuildQuery(index, c.query).Ok?)
  {
    ClausesMembers(spec);
    assert HasPositiveClause(spec) <==> spec.should != [] || spec.must != [] || exists c :: c in spec.queries && c.occur in {Should, Must};
    assert HasPositiveClause(spec) ==> Clauses(spec) != [];
    hide Clauses, HasPositiveClause;
  }

  lemma {:induction false} ClausesMembers(spec: QuerySpec)
    requires spec.Boolean?
    ensures forall c :: c in Clauses(spec) <==>
      || (c.occur.Should? && c.query in spec.should) || (c.occur.Must? && c.query in spec.must)
      || (c.occur.MustNot? && c.query in spec.mustNot) || c in spec.queries
  {
    TaggedMembers(Should, spec.should);
    TaggedMembers(Must, spec.must);
    TaggedMembers(MustNot, spec.mustNot);
    hide Tagged;
  }

  lemma {:induction false} TaggedMembers(occur: Occur, specs: seq<QuerySpec>)
    ensures forall c :: c in Tagged(occur, specs) <==> c.occur == occur && c.query in specs
  {
    forall q | q in specs ensures Clause(occur, q) in Tagged(occur, specs) {
      var i :| 0 <= i < |specs| && specs[i] == q;
      assert Tagged(occur, specs)[i] == Clause(occur, q);
    }
  }

  /** A demotion needs a factor from 0 to 1 and both sides to compile; it compiles to them and the factor. */
  lemma {:induction false} BoostCompilesTo(index: Index, spec: QuerySpec)
    requires spec.Boost?
    ensures BuildQuery(index, spec).Ok? <==>
      && spec.negativeBoost.Finite? && 0.0 <= spec.negativeBoost.value <= 1.0
      && BuildQuery(index, spec.positive).Ok? && BuildQuery(index, spec.negative).Ok?
  {
  }

  // ---- What a compiled inner node is made of ----

  lemma {:induction false} CompiledBoolean(index: Index, spec: QuerySpec) returns (cs: seq<Child>)
    requires spec.Boolean? && BuildQuery(index, spec).Ok?
    ensures BuildQuery(index, spec).value == BooleanQuery(cs) && |cs| == |Clauses(spec)|
    ensures forall i :: 0 <= i < |cs| ==>
      cs[i].occur == Clauses(spec)[i].occur && BuildQuery(index, Clauses(spec)[i].query) == Ok(cs[i].query)
  {
    cs := BuildClauses(index, spec, Clauses(spec)).value;
  }

  lemma {:induction false} CompiledBoost(index: Index, spec: QuerySpec)
    requires spec.Boost? && BuildQuery(index, spec).Ok?
    ensures spec.negativeBoost.Finite? && BuildQuery(index, spec.positive).Ok? && BuildQuery(index, spec.negative).Ok?
    ensures BuildQuery(index, spec).value ==
      DemoteQuery(BuildQuery(index, spec.positive).value, BuildQuery(index, spec.negative).value, spec.negativeBoost.value)
  {
  }

  // ---- Columns ----

  lemma {:induction false} FieldResolvesToItselfIff(index: Index, f: string)
    requires f in Fields(index) && Trim(f) != ""
    ensures ResolveTextField(index, Some(f)) == Ok(f) <==> Trim(f) == f && index.hasField(f)
  {
  }

  lemma {:induction false} ResolveAllToThemselvesIff(index: Index, names: seq<string>)
    requires forall f :: f in names ==> f in Fields(index) && Trim(f) != ""
    ensures ResolveAll(index, names) == Ok(names) <==> forall f :: f in names ==> Trim(f) == f && index.hasField(f)
  {
    if names != [] {
      var n := |names| - 1;
      assert names == names[..n] + [names[n]];
      ResolveAllToThemselvesIff(index, names[..n]);
      FieldResolvesToItselfIff(index, names[n]);
      if ResolveAll(index, names) == Ok(names) {
        assert ResolveAll(index, names[..n]) == Ok(names[..n]);
      }
    }
  }

  /** A match without a column searches all configured fields exactly when they are written without outer blanks
      and known to the schema: field names are trimmed on the way. */
  lemma {:induction false} ColumnlessMatchSearchesAllFieldsIff(index: Index)
    requires IndexConfig.Valid(index.config)
    ensures ResolveMatchFields(index, None) == Ok(Fields(index)) <==>
      forall f :: f in Fields(index) ==> Trim(f) == f && index.hasField(f)
  {
    DedupedKeepsFirstOccurrences(index.config.textFields);
    assert GivenColumn(None).None?;
    ResolveAllToThemselvesIff(index, Fields(index));
  }

  const PADDED_CONFIG := IndexConfig.Config("row_id", [" a"], TokenizerOptions.DEFAULT_CONFIG)

  /** A field name with an outer blank is valid in a configuration, but a match without a column then fails. */
  lemma {:induction false} PaddedFieldNameIsNotFound(index: Index)
    requires index.config == PADDED_CONFIG
    ensures IndexConfig.Valid(index.config) && ResolveMatchFields(index, None).Err?
  {
    var f := " a";
    PaddedName(f);
    hide Trim;
    DedupedOfDistinct([f]);
    assert Fields(index) == [f];
    IndexConfig.DefaultsAreValid(f);
    assert ResolveTextField(index, Some(f)).Err?;
    assert Fields(index)[0] == f;
  }

  lemma {:induction false} PaddedName(f: string)
    requires f == " a"
    ensures Trim(f) == "a" && Trim(f) != f
  {
    assert f[1..] == "a" && TrimStart(f) == TrimStart(f[1..]) == "a";
    assert [f][0] != "a";
  }
}
