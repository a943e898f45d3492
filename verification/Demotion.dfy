/** The demoting scorer: a second cursor dragged lazily behind the first (index.rs). */
module Demotion {
  import opened Dedup
  import opened DocSets

  // ---- Scorers as values ----

  /** A scorer at some point of its life: the documents still to visit and their scores, or a demotion of one by another. */
  datatype Scorer =
    | Leaf(remaining: seq<nat>, score: nat -> real)
    | Demoted(positive: Scorer, negative: Scorer, factor: real)

  function Remaining(s: Scorer): (r: seq<nat>) {
    match s case Leaf(remaining, _) => remaining case Demoted(positive, _, _) => Remaining(positive)
  }

  function Doc(s: Scorer): (r: nat) {
    Current(Remaining(s))
  }

  /** Advancing or seeking moves the positive side only. */
  function Moved(s: Scorer, op: Op): (r: Scorer) {
    match s
    case Leaf(remaining, score) => Leaf(AfterOp(remaining, op), score)
    case Demoted(positive, negative, factor) => Demoted(Moved(positive, op), negative, factor)
  }

  /** `matches_doc`: the negative cursor is moved only when it is behind. */
  function Probed(negative: Scorer, doc: nat): (r: (bool, Scorer)) {
    if doc == TERMINATED then (false, negative)
    else if Doc(negative) < doc then
      var moved := Moved(negative, Seek(doc));
      (Doc(moved) == doc, moved)
    else (Doc(negative) == doc, negative)
  }

  /** Scoring the current document: its score, and the scorer afterwards. */
  function Scored(s: Scorer): (r: (real, Scorer)) {
    match s
    case Leaf(remaining, score) => (score(Current(remaining)), s)
    case Demoted(positive, negative, factor) =>
      var (value, p) := Scored(positive);
      var (matched, n) := Probed(negative, Doc(p));
      (if matched then value * factor else value, Demoted(p, n, factor))
  }

  datatype Call = Move(op: Op) | Score

  function AfterCall(s: Scorer, call: Call): (r: Scorer) {
    match call case Move(op) => Moved(s, op) case Score => Scored(s).1
  }

  function AfterCalls(s: Scorer, calls: seq<Call>): (r: Scorer) {
    if calls == [] then s else AfterCall(AfterCalls(s, calls[..|calls| - 1]), calls[|calls| - 1])
  }

  /** The moves among the calls. */
  function Moves(calls: seq<Call>): (r: seq<Op>) {
    if calls == [] then []
    else
      var n := |calls| - 1;
      Moves(calls[..n]) + match calls[n] case Move(op) => [op] case Score => []
  }

  // ---- What a scorer should say ----

  /** The score of a document, told from the fresh scorer alone. */
  function ScoreAt(origin: Scorer, d: nat): (r: real) {
    match origin
    case Leaf(_, score) => score(d)
    case Demoted(positive, negative, factor) =>
      if d in Remaining(negative) then ScoreAt(positive, d) * factor else ScoreAt(positive, d)
  }

  ghost predicate Valid(s: Scorer) {
    match s
    case Leaf(remaining, _) => ValidDocs(remaining)
    case Demoted(positive, negative, _) => Valid(positive) && Valid(negative)
  }

  // ---- The invariant ----

  ghost predicate IsSuffix(all: seq<nat>, rest: seq<nat>) {
    exists n :: 0 <= n <= |all| && rest == all[n..]
  }

  /** `s` is `origin` some calls later. The negative cursor has passed no document the positive side may still reach. */
  ghost predicate Follows(origin: Scorer, s: Scorer) {
    match origin
    case Leaf(remaining, score) => s.Leaf? && s.score == score && IsSuffix(remaining, s.remaining)
    case Demoted(positive, negative, factor) =>
      && s.Demoted? && s.factor == factor
      && Follows(positive, s.positive) && Follows(negative, s.negative)
      && forall d :: d in Remaining(negative) && d !in Remaining(s.negative) ==> d < Doc(s.positive)
  }

  lemma {:induction false} RemainingIsValid(s: Scorer)
    requires Valid(s)
    ensures ValidDocs(Remaining(s))
  {
    if s.Demoted? {
      RemainingIsValid(s.positive);
    }
  }

  lemma {:induction false} SuffixIsValid(all: seq<nat>, rest: seq<nat>)
    requires ValidDocs(all) && IsSuffix(all, rest)
    ensures ValidDocs(rest) && forall d :: d in rest ==> d in all
  {
  }

  lemma {:induction false} FollowersAreSuffixes(origin: Scorer, s: Scorer)
    requires Valid(origin) && Follows(origin, s)
    ensures IsSuffix(Remaining(origin), Remaining(s)) && Valid(s)
  {
    match origin {
      case Leaf(remaining, _) => SuffixIsValid(remaining, s.remaining);
      case Demoted(positive, negative, _) =>
        FollowersAreSuffixes(positive, s.positive);
        FollowersAreSuffixes(negative, s.negative);
    }
  }

  lemma {:induction false} FreshFollowsItself(origin: Scorer)
    ensures Follows(origin, origin)
  {
    match origin {
      case Leaf(remaining, _) => assert remaining == remaining[0..];
      case Demoted(positive, negative, _) =>
        FreshFollowsItself(positive);
        FreshFollowsItself(negative);
    }
  }

  lemma {:induction false} SuffixOfSuffix(all: seq<nat>, middle: seq<nat>, rest: seq<nat>)
    requires IsSuffix(all, middle) && IsSuffix(middle, rest)
    ensures IsSuffix(all, rest)
  {
    var m :| 0 <= m <= |all| && middle == all[m..];
    var n :| 0 <= n <= |middle| && rest == middle[n..];
    assert rest == all[m + n..];
  }

  lemma {:induction false} MovedRemaining(s: Scorer, op: Op)
    ensures Remaining(Moved(s, op)) == AfterOp(Remaining(s), op)
  {
    if s.Demoted? {
      MovedRemaining(s.positive, op);
    }
  }

  /** Moving keeps the invariant: the positive document only grows. */
  lemma {:induction false} MovedFollows(origin: Scorer, s: Scorer, op: Op)
    requires Valid(origin) && Follows(origin, s)
    ensures Follows(origin, Moved(s, op)) && Doc(s) <= Doc(Moved(s, op))
  {
    FollowersAreSuffixes(origin, s);
    RemainingIsValid(s);
    MovedRemaining(s, op);
    AfterOpIsASuffix(Remaining(s), op);
    match origin {
      case Leaf(remaining, _) => SuffixOfSuffix(remaining, s.remaining, AfterOp(s.remaining, op));
      case Demoted(positive, negative, _) => MovedFollows(positive, s.positive, op);
    }
  }

  /** Seeking drops only documents below the target, and lands on the target exactly if it is there. */
  lemma {:induction false} SeekFinds(rest: seq<nat>, doc: nat)
    requires ValidDocs(rest)
    ensures forall d :: d in rest && d !in AfterSeek(rest, doc) ==> d < doc
    ensures doc < TERMINATED ==> (Current(AfterSeek(rest, doc)) == doc <==> doc in rest)
  {
    var moved := AfterSeek(rest, doc);
    ListCursorIsSetCursor(rest, Seek(doc));
    SeekKeepsDocsValid(rest, doc);
    ListCursorIsSetCursor(moved, Advance);
    assert forall d :: d in moved <==> d in Elements(rest) && d >= doc by {
      assert forall d :: d in moved <==> d in Elements(moved);
    }
  }

  lemma {:induction false} SeekKeepsDocsValid(rest: seq<nat>, doc: nat)
    requires ValidDocs(rest)
    ensures ValidDocs(AfterSeek(rest, doc))
  {
    AfterOpIsASuffix(rest, Seek(doc));
  }

  /** Probing answers membership in the fresh negative set, however the cursor got where it is. */
  lemma {:induction false} ProbeIsExact(origin: Scorer, negative: Scorer, doc: nat)
    requires Valid(origin) && Follows(origin, negative) && doc <= TERMINATED
    requires forall d :: d in Remaining(origin) && d !in Remaining(negative) ==> d < doc
    ensures var (matched, n) := Probed(negative, doc);
      && (matched <==> doc in Remaining(origin))
      && Follows(origin, n)
      && forall d :: d in Remaining(origin) && d !in Remaining(n) ==> d < doc
  {
    RemainingIsValid(origin);
    FollowersAreSuffixes(origin, negative);
    RemainingIsValid(negative);
    var rest := Remaining(negative);
    assert doc in Remaining(origin) <==> doc in rest by {
      SuffixIsValid(Remaining(origin), rest);
    }
    if doc == TERMINATED {
      assert doc !in Remaining(origin);
    } else if Doc(negative) < doc {
      MovedRemaining(negative, Seek(doc));
      MovedFollows(origin, negative, Seek(doc));
      SeekFinds(rest, doc);
    } else {
      SeekFinds(rest, doc);
      assert AfterSeek(rest, doc) == rest;
    }
  }

  lemma {:induction false} DocIsBounded(s: Scorer)
    requires Valid(s)
    ensures Doc(s) <= TERMINATED
  {
    RemainingIsValid(s);
  }

  /** Scoring says what the fresh scorer says of the current document, does not move it, and keeps the invariant. */
  lemma {:induction false} ScoringIsExact(origin: Scorer, s: Scorer)
    requires Valid(origin) && Follows(origin, s)
    ensures Scored(s).0 == ScoreAt(origin, Doc(s))
    ensures Remaining(Scored(s).1) == Remaining(s) && Follows(origin, Scored(s).1)
  {
    match origin {
      case Leaf(_, _) =>
      case Demoted(positive, negative, factor) =>
        ScoringIsExact(positive, s.positive);
        FollowersAreSuffixes(positive, s.positive);
        DocIsBounded(s.positive);
        ProbeIsExact(negative, s.negative, Doc(s.positive));
    }
  }

  lemma {:induction false} CallsFollow(origin: Scorer, calls: seq<Call>)
    requires Valid(origin)
    ensures Follows(origin, AfterCalls(origin, calls))
    ensures Remaining(AfterCalls(origin, calls)) == AfterOps(Remaining(origin), Moves(calls))
  {
    if calls == [] {
      FreshFollowsItself(origin);
    } else {
      var n := |calls| - 1;
      var s := AfterCalls(origin, calls[..n]);
      CallsFollow(origin, calls[..n]);
      match calls[n] {
        case Move(op) =>
          MovedFollows(origin, s, op);
          MovedRemaining(s, op);
          var ops := Moves(calls[..n]) + [op];
          assert ops[..|ops| - 1] == Moves(calls[..n]);
        case Score =>
          ScoringIsExact(origin, s);
          assert Moves(calls) == Moves(calls[..n]);
      }
    }
  }

  /** History independence: after any calls, with scores repeated or skipped and demotions nested in any way, the
      scorer stands where its moves alone lead, and its score there depends on that document only. */
  lemma {:induction false} ScoreIsHistoryIndependent(origin: Scorer, calls: seq<Call>)
    requires Valid(origin)
    ensures var s := AfterCalls(origin, calls);
      && Doc(s) == Current(AfterOps(Remaining(origin), Moves(calls)))
      && Scored(s).0 == ScoreAt(origin, Doc(s))
  {
    CallsFollow(origin, calls);
    ScoringIsExact(origin, AfterCalls(origin, calls));
  }
}
