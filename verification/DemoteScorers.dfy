/** The demoting scorer as the object it is: two boxed scorers whose cursors it moves in place (index.rs). */
module DemoteScorers {
  import opened DocSets
  import Demotion

  function ConstScore(boost: real): (r: nat -> real) {
    (d: nat) => boost
  }

  /** A scorer of the engine, known by its contract: a cursor and a score for each document. */
  class LibraryScorer {
    const score: nat -> real
    var remaining: seq<nat>

    constructor (docs: seq<nat>, score: nat -> real)
      ensures remaining == docs && this.score == score
    {
      remaining := docs;
      this.score := score;
    }
  }

  /** A boxed scorer: the engine's, a constant one over a sorted doc set, or a demoting one. */
  datatype BoxedScorer =
    | Library(scorer: LibraryScorer)
    | Const(docs: SortedDocSet, boost: real)
    | Demote(demote: DemoteScorer)
  {
    ghost function Repr(): (r: set<object>) {
      match this case Library(s) => {s} case Const(docs, _) => {docs} case Demote(d) => d.Repr()
    }

    ghost predicate Valid()
      reads Repr()
      decreases Repr(), 1
    {
      match this
      case Library(s) => ValidDocs(s.remaining)
      case Const(docs, _) => docs.Valid()
      case Demote(d) => d.Valid()
    }

    /** The scorer this object currently is. */
    ghost function Value(): (r: Demotion.Scorer)
      requires Valid()
      reads Repr()
      decreases Repr(), 1
    {
      match this
      case Library(s) => Demotion.Leaf(s.remaining, s.score)
      case Const(docs, boost) => Demotion.Leaf(docs.Remaining(), ConstScore(boost))
      case Demote(d) => d.Value()
    }

    method Advance() returns (r: nat)
      requires Valid()
      modifies Repr()
      ensures Valid() && Value() == Demotion.Moved(old(Value()), DocSets.Advance)
      ensures r == Demotion.Doc(Value())
      decreases Repr(), 1
    {
      match this
      case Library(s) =>
        AfterOpIsASuffix(s.remaining, DocSets.Advance);
        s.remaining := AfterAdvance(s.remaining);
        r := Current(s.remaining);
      case Const(docs, _) => r := docs.Advance();
      case Demote(d) => r := d.Advance();
    }

    method Seek(target: nat) returns (r: nat)
      requires Valid()
      modifies Repr()
      ensures Valid() && Value() == Demotion.Moved(old(Value()), DocSets.Seek(target))
      ensures r == Demotion.Doc(Value())
      decreases Repr(), 1
    {
      match this
      case Library(s) =>
        AfterOpIsASuffix(s.remaining, DocSets.Seek(target));
        s.remaining := AfterSeek(s.remaining, target);
        r := Current(s.remaining);
      case Const(docs, _) => r := docs.Seek(target);
      case Demote(d) => r := d.Seek(target);
    }

    method Doc() returns (r: nat)
      requires Valid()
      ensures r == Demotion.Doc(Value())
      decreases Repr(), 1
    {
      match this
      case Library(s) => r := Current(s.remaining);
      case Const(docs, _) => r := docs.Doc();
      case Demote(d) => r := d.Doc();
    }

    method Score() returns (r: real)
      requires Valid()
      modifies Repr()
      ensures Valid() && r == Demotion.Scored(old(Value())).0 && Value() == Demotion.Scored(old(Value())).1
      decreases Repr(), 1
    {
      match this
      case Library(s) => r := s.score(Current(s.remaining));
      case Const(_, boost) => r := boost;
      case Demote(d) => r := d.Score();
    }
  }

  class DemoteScorer {
    const positive: BoxedScorer
    const negative: BoxedScorer
    const factor: real
    ghost const positiveRepr: set<object>
    ghost const negativeRepr: set<object>

    ghost function Repr(): (r: set<object>) {
      {this} + positiveRepr + negativeRepr
    }

    /** The two scorers share nothing. */
    ghost predicate Valid()
      reads Repr()
      decreases Repr(), 0
    {
      && positive.Repr() == positiveRepr && negative.Repr() == negativeRepr
      && this !in positiveRepr && this !in negativeRepr && positiveRepr !! negativeRepr
      && Below(positiveRepr) && Below(negativeRepr)
      && positive.Valid() && negative.Valid()
    }

    ghost predicate Below(part: set<object>) {
      part < Repr()
    }

    ghost function Value(): (r: Demotion.Scorer)
      requires Valid()
      reads Repr()
      decreases Repr(), 0
    {
      Demotion.Demoted(positive.Value(), negative.Value(), factor)
    }

    constructor (positive: BoxedScorer, negative: BoxedScorer, factor: real)
      requires positive.Valid() && negative.Valid() && positive.Repr() !! negative.Repr()
      ensures Valid() && Repr() == {this} + positive.Repr() + negative.Repr()
      ensures Value() == Demotion.Demoted(positive.Value(), negative.Value(), factor)
    {
      this.positive, this.negative, this.factor := positive, negative, factor;
      positiveRepr, negativeRepr := positive.Repr(), negative.Repr();
    }

    method Advance() returns (r: nat)
      requires Valid()
      modifies Repr()
      ensures Valid() && Value() == Demotion.Moved(old(Value()), DocSets.Advance)
      ensures r == Demotion.Doc(Value())
      decreases Repr(), 0
    {
      r := positive.Advance();
    }

    method Seek(target: nat) returns (r: nat)
      requires Valid()
      modifies Repr()
      ensures Valid() && Value() == Demotion.Moved(old(Value()), DocSets.Seek(target))
      ensures r == Demotion.Doc(Value())
      decreases Repr(), 0
    {
      r := positive.Seek(target);
    }

    method Doc() returns (r: nat)
      requires Valid()
      ensures r == Demotion.Doc(Value())
      decreases Repr(), 0
    {
      r := positive.Doc();
    }

    /** The positive score, demoted if the negative scorer stands on or can be moved to the same document. */
    method Score() returns (r: real)
      requires Valid()
      modifies Repr()
      ensures Valid() && r == Demotion.Scored(old(Value())).0 && Value() == Demotion.Scored(old(Value())).1
      decreases Repr(), 0
    {
      ghost var p, n := positive.Value(), negative.Value();
      var score := positive.Score();
      ghost var scored := positive.Value();
      var doc := positive.Doc();
      var matched := MatchesDoc(negative, doc);
      DemotedScore(p, n, factor, score, scored, matched, negative.Value());
      r := if matched then score * factor else score;
    }

    lemma {:induction false} DemotedScore(p: Demotion.Scorer, n: Demotion.Scorer, factor: real,
      score: real, p': Demotion.Scorer, matched: bool, n': Demotion.Scorer)
      requires score == Demotion.Scored(p).0 && p' == Demotion.Scored(p).1
      requires matched == Demotion.Probed(n, Demotion.Doc(p')).0 && n' == Demotion.Probed(n, Demotion.Doc(p')).1
      ensures Demotion.Scored(Demotion.Demoted(p, n, factor)).0 == if matched then score * factor else score
      ensures Demotion.Scored(Demotion.Demoted(p, n, factor)).1 == Demotion.Demoted(p', n', factor)
    {
    }

    static method MatchesDoc(docset: BoxedScorer, doc: nat) returns (matched: bool)
      requires docset.Valid()
      modifies docset.Repr()
      ensures docset.Valid() && matched == Demotion.Probed(old(docset.Value()), doc).0
      ensures docset.Value() == Demotion.Probed(old(docset.Value()), doc).1
      decreases docset.Repr(), 2
    {
      if doc == TERMINATED {
        return false;
      }
      var current := docset.Doc();
      if current < doc {
        var landed := docset.Seek(doc);
        matched := landed == doc;
      } else {
        matched := current == doc;
      }
    }
  }
}
