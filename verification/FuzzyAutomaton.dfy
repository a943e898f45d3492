/** The product of a Levenshtein automaton and a prefix check, and the pruned dictionary search (index.rs). */
module FuzzyAutomaton {
  import opened Base

  // The rejecting state the automaton library reserves
  const SINK_STATE: nat := 0

  /** The library's automaton: any deterministic one whose sink rejects and is never left. */
  datatype Dfa = Dfa(initial: nat, transition: (nat, byte) -> nat, exact: nat -> bool)

  ghost predicate ValidDfa(dfa: Dfa) {
    !dfa.exact(SINK_STATE) && forall b: byte :: dfa.transition(SINK_STATE, b) == SINK_STATE
  }

  // The automaton's state and how much of the prefix has been seen, if it still fits
  type State = (nat, Option<nat>)

  datatype PrefixedDfaAutomaton = PrefixedDfaAutomaton(dfa: Dfa, prefix: seq<byte>) {
    function Start(): (r: State) {
      (dfa.initial, Some(0))
    }

    predicate IsMatch(s: State) {
      dfa.exact(s.0) && s.1.Some? && s.1.value >= |prefix|
    }

    predicate CanMatch(s: State) {
      s.0 != SINK_STATE && s.1.Some?
    }

    function Accept(s: State, b: byte): (r: State) {
      (dfa.transition(s.0, b),
       match s.1
       case None => None
       case Some(pos) => if pos >= |prefix| then Some(pos) else if prefix[pos] == b then Some(pos + 1) else None)
    }

    function Run(s: State, bytes: seq<byte>): (r: State) {
      if bytes == [] then s else Accept(Run(s, bytes[..|bytes| - 1]), bytes[|bytes| - 1])
    }
  }

  function RunDfa(dfa: Dfa, bytes: seq<byte>): (r: nat) {
    if bytes == [] then dfa.initial else dfa.transition(RunDfa(dfa, bytes[..|bytes| - 1]), bytes[|bytes| - 1])
  }

  /** After any bytes the first component is the DFA's state, the second says how the bytes compare with the prefix. */
  lemma {:induction false} RunIsAProduct(a: PrefixedDfaAutomaton, bytes: seq<byte>)
    ensures a.Run(a.Start(), bytes).0 == RunDfa(a.dfa, bytes)
    ensures a.Run(a.Start(), bytes).1 ==
      if a.prefix <= bytes then Some(|a.prefix|) else if bytes <= a.prefix then Some(|bytes|) else None
  {
    if bytes != [] {
      var n := |bytes| - 1;
      RunIsAProduct(a, bytes[..n]);
      assert bytes == bytes[..n] + [bytes[n]];
      if a.prefix <= bytes[..n] {
        assert a.prefix <= bytes;
      } else if bytes[..n] <= a.prefix {
        assert n < |a.prefix|;
        assert a.prefix[..n] == bytes[..n];
        if a.prefix[n] == bytes[n] {
          assert a.prefix[..n + 1] == bytes;
        }
      }
    }
  }

  /** A term is accepted exactly when the DFA accepts it and it starts with the prefix. */
  lemma {:induction false} MatchIsExact(a: PrefixedDfaAutomaton, bytes: seq<byte>)
    ensures a.IsMatch(a.Run(a.Start(), bytes)) <==> a.dfa.exact(RunDfa(a.dfa, bytes)) && a.prefix <= bytes
  {
    RunIsAProduct(a, bytes);
  }

  /** The search goes on while the automaton is not in its sink, state 0, and the bytes agree with the prefix as far as both go. */
  lemma {:induction false} SearchGoesOnIff(a: PrefixedDfaAutomaton, bytes: seq<byte>)
    ensures a.CanMatch(a.Run(a.Start(), bytes)) <==> RunDfa(a.dfa, bytes) != 0 && (a.prefix <= bytes || bytes <= a.prefix)
  {
    RunIsAProduct(a, bytes);
  }

  lemma {:induction false} RunConcat(a: PrefixedDfaAutomaton, s: State, x: seq<byte>, y: seq<byte>)
    ensures a.Run(s, x + y) == a.Run(a.Run(s, x), y)
  {
    if y == [] {
      assert x + y == x;
    } else {
      assert (x + y)[..|x + y| - 1] == x + y[..|y| - 1];
      RunConcat(a, s, x, y[..|y| - 1]);
    }
  }

  /** A state that cannot match never matches again, whatever follows. */
  lemma {:induction false} PruningIsSafe(a: PrefixedDfaAutomaton, s: State, bytes: seq<byte>)
    requires ValidDfa(a.dfa) && !a.CanMatch(s)
    ensures !a.CanMatch(a.Run(s, bytes)) && !a.IsMatch(a.Run(s, bytes))
  {
    if bytes != [] {
      PruningIsSafe(a, s, bytes[..|bytes| - 1]);
    }
  }

  // ---- The dictionary ----

  /** The branches of a dictionary node, in order: one edge, whether a term ends behind it, what lies below it. */
  datatype Branches = Leaf | Branch(edge: byte, final: bool, below: Branches, next: Branches)

  /** A dictionary as a byte trie; `final` says whether it holds the empty term. */
  datatype Trie = Trie(final: bool, branches: Branches)

  function Prepend(b: byte, terms: seq<seq<byte>>): (r: seq<seq<byte>>)
    ensures |r| == |terms| && forall i :: 0 <= i < |terms| ==> r[i] == [b] + terms[i]
  {
    seq(|terms|, i requires 0 <= i < |terms| => [b] + terms[i])
  }

  function Own(present: bool): (r: seq<seq<byte>>) {
    if present then [[]] else []
  }

  function TermsOf(branches: Branches): (r: seq<seq<byte>>) {
    match branches
    case Leaf => []
    case Branch(b, final, below, next) => Prepend(b, Own(final) + TermsOf(below)) + TermsOf(next)
  }

  /** All terms, in the order of the trie. */
  function Terms(trie: Trie): (r: seq<seq<byte>>) {
    Own(trie.final) + TermsOf(trie.branches)
  }

  /** The path of a term leads along edges to a node that is marked as the end of one. */
  predicate Ends(branches: Branches, term: seq<byte>) {
    && term != [] && branches.Branch?
    && ((branches.edge == term[0] && if |term| == 1 then branches.final else Ends(branches.below, term[1..]))
        || Ends(branches.next, term))
  }

  lemma {:induction false} PrependMembers(b: byte, terms: seq<seq<byte>>, t: seq<byte>)
    ensures t in Prepend(b, terms) <==> t != [] && t[0] == b && t[1..] in terms
  {
    if t != [] && t[0] == b && t[1..] in terms {
      var i :| 0 <= i < |terms| && terms[i] == t[1..];
      assert Prepend(b, terms)[i] == [b] + t[1..] == t;
    }
  }

  lemma {:induction false} BranchTermsAreMarked(branches: Branches, t: seq<byte>)
    ensures t in TermsOf(branches) <==> Ends(branches, t)
  {
    match branches {
      case Leaf =>
      case Branch(b, final, below, next) =>
        PrependMembers(b, Own(final) + TermsOf(below), t);
        BranchTermsAreMarked(next, t);
        if t != [] {
          BranchTermsAreMarked(below, t[1..]);
        }
    }
  }

  /** The terms of a trie are exactly the paths to its marked nodes. */
  lemma {:induction false} TermsAreMarkedPaths(trie: Trie, t: seq<byte>)
    ensures t in Terms(trie) <==> if t == [] then trie.final else Ends(trie.branches, t)
  {
    BranchTermsAreMarked(trie.branches, t);
  }

  /** The automaton-driven walk: a node is entered only while its state can match. */
  function SearchBranches(a: PrefixedDfaAutomaton, branches: Branches, s: State): (r: seq<seq<byte>>) {
    match branches
    case Leaf => []
    case Branch(b, final, below, next) =>
      var t := a.Accept(s, b);
      (if a.CanMatch(t) then Prepend(b, Own(final && a.IsMatch(t)) + SearchBranches(a, below, t)) else [])
        + SearchBranches(a, next, s)
  }

  function Search(a: PrefixedDfaAutomaton, trie: Trie): (r: seq<seq<byte>>) {
    var s := a.Start();
    if a.CanMatch(s) then Own(trie.final && a.IsMatch(s)) + SearchBranches(a, trie.branches, s) else []
  }

  function MatchesFrom(a: PrefixedDfaAutomaton, s: State): (r: seq<byte> -> bool) {
    t => a.IsMatch(a.Run(s, t))
  }

  lemma {:induction false} FilterPrepend(a: PrefixedDfaAutomaton, s: State, b: byte, terms: seq<seq<byte>>)
    ensures Filter(MatchesFrom(a, s), Prepend(b, terms)) == Prepend(b, Filter(MatchesFrom(a, a.Accept(s, b)), terms))
  {
    if terms != [] {
      FilterPrepend(a, s, b, terms[1..]);
      assert Prepend(b, terms)[1..] == Prepend(b, terms[1..]);
      RunConcat(a, s, [b], terms[0]);
      assert [b][..0] == [];
      assert a.Run(s, [b]) == a.Accept(s, b);
    }
  }

  lemma {:induction false} FilterNone<T>(p: T -> bool, s: seq<T>)
    requires forall x :: x in s ==> !p(x)
    ensures Filter(p, s) == []
  {
    if s != [] {
      FilterNone(p, s[1..]);
    }
  }

  lemma {:induction false} PrunedTermsDoNotMatch(a: PrefixedDfaAutomaton, s: State, terms: seq<seq<byte>>)
    requires ValidDfa(a.dfa) && !a.CanMatch(s)
    ensures Filter(MatchesFrom(a, s), terms) == []
  {
    forall t | t in terms ensures !MatchesFrom(a, s)(t) {
      PruningIsSafe(a, s, t);
    }
    FilterNone(MatchesFrom(a, s), terms);
  }

  lemma {:induction false} OwnFiltered(a: PrefixedDfaAutomaton, s: State, final: bool, rest: seq<seq<byte>>)
    ensures Filter(MatchesFrom(a, s), Own(final) + rest) == Own(final && a.IsMatch(s)) + Filter(MatchesFrom(a, s), rest)
  {
    FilterConcat(MatchesFrom(a, s), Own(final), rest);
    assert Filter(MatchesFrom(a, s), Own(final)) == Own(final && a.IsMatch(s));
  }

  lemma {:induction false} BranchSearchIsFilter(a: PrefixedDfaAutomaton, branches: Branches, s: State)
    requires ValidDfa(a.dfa)
    ensures SearchBranches(a, branches, s) == Filter(MatchesFrom(a, s), TermsOf(branches))
  {
    match branches {
      case Leaf =>
      case Branch(b, final, below, next) =>
        var t := a.Accept(s, b);
        var node := Own(final) + TermsOf(below);
        FilterConcat(MatchesFrom(a, s), Prepend(b, node), TermsOf(next));
        FilterPrepend(a, s, b, node);
        BranchSearchIsFilter(a, next, s);
        if a.CanMatch(t) {
          BranchSearchIsFilter(a, below, t);
          OwnFiltered(a, t, final, TermsOf(below));
        } else {
          PrunedTermsDoNotMatch(a, t, node);
        }
    }
  }

  /** The pruned search finds exactly the terms that the DFA accepts and that start with the prefix, in dictionary order. */
  lemma {:induction false} SearchIsFilter(a: PrefixedDfaAutomaton, trie: Trie)
    requires ValidDfa(a.dfa)
    ensures Search(a, trie) == Filter((t: seq<byte>) => a.dfa.exact(RunDfa(a.dfa, t)) && a.prefix <= t, Terms(trie))
  {
    var s := a.Start();
    if a.CanMatch(s) {
      BranchSearchIsFilter(a, trie.branches, s);
      OwnFiltered(a, s, trie.final, TermsOf(trie.branches));
    } else {
      PrunedTermsDoNotMatch(a, s, Terms(trie));
    }
    forall t: seq<byte> ensures MatchesFrom(a, s)(t) <==> a.dfa.exact(RunDfa(a.dfa, t)) && a.prefix <= t {
      MatchIsExact(a, t);
    }
    FilterAgrees(MatchesFrom(a, s), (t: seq<byte>) => a.dfa.exact(RunDfa(a.dfa, t)) && a.prefix <= t, Terms(trie));
  }

  lemma {:induction false} FilterAgrees<T>(p: T -> bool, q: T -> bool, s: seq<T>)
    requires forall x :: x in s ==> p(x) == q(x)
    ensures Filter(p, s) == Filter(q, s)
  {
    if s != [] {
      FilterAgrees(p, q, s[1..]);
    }
  }

  // ---- Dictionary order ----

  predicate Before(x: seq<byte>, y: seq<byte>) {
    y != [] && (x == [] || x[0] < y[0] || (x[0] == y[0] && Before(x[1..], y[1..])))
  }

  ghost predicate Ordered(terms: seq<seq<byte>>) {
    forall i, j :: 0 <= i < j < |terms| ==> Before(terms[i], terms[j])
  }

  predicate Ascending(branches: Branches) {
    branches.Leaf? || (
      && Ascending(branches.below) && Ascending(branches.next)
      && (branches.next.Branch? ==> branches.edge < branches.next.edge))
  }

  lemma {:induction false} BranchTermsAreOrdered(branches: Branches)
    requires Ascending(branches)
    ensures Ordered(TermsOf(branches))
    ensures forall t :: t in TermsOf(branches) ==> t != [] && branches.Branch? && t[0] >= branches.edge
  {
    match branches {
      case Leaf =>
      case Branch(b, final, below, next) =>
        BranchTermsAreOrdered(below);
        BranchTermsAreOrdered(next);
        var node := Own(final) + TermsOf(below);
        assert Ordered(node) by {
          forall i, j | 0 <= i < j < |node| ensures Before(node[i], node[j]) {
            assert TermsOf(below)[j - |Own(final)|] in TermsOf(below);
          }
        }
        ConcatIsOrdered(b, node, TermsOf(next));
    }
  }

  lemma {:induction false} ConcatIsOrdered(b: byte, node: seq<seq<byte>>, rest: seq<seq<byte>>)
    requires Ordered(node) && Ordered(rest) && forall t :: t in rest ==> t != [] && b < t[0]
    ensures Ordered(Prepend(b, node) + rest)
  {
    var first := Prepend(b, node);
    forall i, j | 0 <= i < j < |first + rest| ensures Before((first + rest)[i], (first + rest)[j]) {
      if j < |first| {
        assert first[i][1..] == node[i] && first[j][1..] == node[j];
      } else {
        assert rest[j - |first|] in rest;
        if i >= |first| {
          assert Before(rest[i - |first|], rest[j - |first|]);
        }
      }
    }
  }

  /** The terms of a trie with ascending branches come in strict byte order, so "the first" ones are well defined. */
  lemma {:induction false} TermsAreOrdered(trie: Trie)
    requires Ascending(trie.branches)
    ensures Ordered(Terms(trie))
  {
    BranchTermsAreOrdered(trie.branches);
    forall i, j | 0 <= i < j < |Terms(trie)| ensures Before(Terms(trie)[i], Terms(trie)[j]) {
      assert TermsOf(trie.branches)[j - |Own(trie.final)|] in TermsOf(trie.branches);
    }
  }
}
