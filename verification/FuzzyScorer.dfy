/** The scorer of a capped fuzzy term: postings of the first matching terms, merged and deduplicated (index.rs). */
module FuzzyScorer {
  import opened Base
  import opened Dedup
  import opened DocSets

  /** A dictionary term and its postings, as the engine hands them out: non-empty blocks of documents. */
  datatype TermEntry = TermEntry(term: seq<byte>, blocks: seq<seq<nat>>)

  predicate BelowEnd(docs: seq<nat>) {
    forall d :: d in docs ==> d < TERMINATED
  }

  predicate ValidEntry(e: TermEntry) {
    forall b :: b in e.blocks ==> b != [] && BelowEnd(b)
  }

  function Postings(e: TermEntry): (r: set<nat>) {
    Elements(Flatten(e.blocks))
  }

  /** The documents of the first `n` terms. */
  function Union(terms: seq<TermEntry>, n: nat): (r: set<nat>)
    requires n <= |terms|
  {
    if n == 0 then {} else Union(terms, n - 1) + Postings(terms[n - 1])
  }

  function CappedUnion(terms: seq<TermEntry>, maxExpansions: nat): (r: set<nat>) {
    Union(terms, Min(maxExpansions, |terms|))
  }

  /** The block reader of one term: an empty block marks the end. */
  class BlockPostings {
    const blocks: seq<seq<nat>>
    var next: nat

    constructor (blocks: seq<seq<nat>>)
      ensures this.blocks == blocks && next == 0
    {
      this.blocks := blocks;
      next := 0;
    }

    method Docs() returns (docs: seq<nat>)
      ensures docs == if next < |blocks| then blocks[next] else []
    {
      docs := if next < |blocks| then blocks[next] else [];
    }

    method Advance()
      modifies this
      ensures next == old(next) + 1
    {
      next := next + 1;
    }
  }

  method ReadAllBlocks(entry: TermEntry, docs: seq<nat>) returns (r: seq<nat>)
    requires ValidEntry(entry)
    ensures r == docs + Flatten(entry.blocks)
  {
    r := docs;
    var postings := new BlockPostings(entry.blocks);
    while true
      invariant fresh(postings) && postings.blocks == entry.blocks && postings.next <= |entry.blocks|
      invariant r == docs + Flatten(entry.blocks[..postings.next])
      decreases |entry.blocks| - postings.next
    {
      assert forall k :: 0 <= k < |entry.blocks| ==> entry.blocks[k] in entry.blocks;
      var block := postings.Docs();
      if block == [] {
        break;
      }
      FlattenAppend(entry.blocks[..postings.next], block);
      assert entry.blocks[..postings.next + 1] == entry.blocks[..postings.next] + [block];
      r := r + block;
      postings.Advance();
    }
    assert entry.blocks[..postings.next] == entry.blocks;
  }

  // ---- Sort and dedup ----

  predicate Ascending(s: seq<nat>) {
    forall i, j :: 0 <= i < j < |s| ==> s[i] <= s[j]
  }

  function Insert(x: nat, s: seq<nat>): (r: seq<nat>) {
    if s == [] || x <= s[0] then [x] + s else [s[0]] + Insert(x, s[1..])
  }

  /** `sort_unstable`: on numbers, the ascending permutation. */
  function Sorted(s: seq<nat>): (r: seq<nat>) {
    if s == [] then [] else Insert(s[0], Sorted(s[1..]))
  }

  /** `dedup`: drops every element equal to its left neighbour. */
  function DedupAdjacent(s: seq<nat>): (r: seq<nat>) {
    if |s| <= 1 then s
    else
      var n := |s| - 1;
      if s[n] == s[n - 1] then DedupAdjacent(s[..n]) else DedupAdjacent(s[..n]) + [s[n]]
  }

  lemma {:induction false} InsertPermutes(x: nat, s: seq<nat>)
    ensures multiset(Insert(x, s)) == multiset(s) + multiset{x}
  {
    if !(s == [] || x <= s[0]) {
      InsertPermutes(x, s[1..]);
      assert s == [s[0]] + s[1..];
    }
  }

  lemma {:induction false} InsertSorts(x: nat, s: seq<nat>)
    requires Ascending(s)
    ensures Ascending(Insert(x, s))
    ensures Insert(x, s)[0] == if s == [] || x <= s[0] then x else s[0]
  {
    if !(s == [] || x <= s[0]) {
      InsertSorts(x, s[1..]);
      var rest := Insert(x, s[1..]);
      forall j | 0 <= j < |rest| ensures s[0] <= rest[j] {
        assert s[0] <= rest[0] <= rest[j] by {
          assert j == 0 || rest[0] <= rest[j];
        }
      }
    }
  }

  lemma {:induction false} SortedSorts(s: seq<nat>)
    ensures Ascending(Sorted(s)) && multiset(Sorted(s)) == multiset(s)
  {
    if s != [] {
      SortedSorts(s[1..]);
      InsertSorts(s[0], Sorted(s[1..]));
      InsertPermutes(s[0], Sorted(s[1..]));
      assert s == [s[0]] + s[1..];
    }
  }

  lemma {:induction false} DedupMakesStrict(s: seq<nat>)
    requires Ascending(s)
    ensures StrictlyAscending(DedupAdjacent(s)) && Elements(DedupAdjacent(s)) == Elements(s)
    ensures s != [] ==> DedupAdjacent(s) != [] && DedupAdjacent(s)[|DedupAdjacent(s)| - 1] == s[|s| - 1]
  {
    if |s| > 1 {
      var n := |s| - 1;
      DedupMakesStrict(s[..n]);
      assert s[..n][n - 1] == s[n - 1];
      ElementsOfInit(s);
      if s[n] == s[n - 1] {
        assert s[n - 1] in s[..n];
      } else {
        StrictAppend(DedupAdjacent(s[..n]), s[n]);
      }
    }
  }

  lemma {:induction false} ElementsOfInit(s: seq<nat>)
    requires s != []
    ensures Elements(s) == Elements(s[..|s| - 1]) + {s[|s| - 1]}
  {
    assert s == s[..|s| - 1] + [s[|s| - 1]];
  }

  lemma {:induction false} StrictAppend(d: seq<nat>, x: nat)
    requires StrictlyAscending(d) && (d != [] ==> d[|d| - 1] < x)
    ensures StrictlyAscending(d + [x]) && Elements(d + [x]) == Elements(d) + {x}
  {
    forall i | 0 <= i < |d| ensures d[i] < x {
      assert d[i] <= d[|d| - 1];
    }
  }

  /** A strictly ascending list is determined by its set. */
  lemma {:induction false} AscendingListIsUnique(a: seq<nat>, b: seq<nat>)
    requires StrictlyAscending(a) && StrictlyAscending(b) && Elements(a) == Elements(b)
    ensures a == b
  {
    assert a != [] ==> a[0] in Elements(b);
    assert b != [] ==> b[0] in Elements(a);
    if a != [] {
      assert a[0] in Elements(b) && b[0] in Elements(a);
      assert a[0] == b[0];
      DistinctTail(a);
      DistinctTail(b);
      AscendingListIsUnique(a[1..], b[1..]);
      assert a == [a[0]] + a[1..] && b == [b[0]] + b[1..];
    }
  }

  // ---- The scorer ----

  /** Exactly the documents of the first terms, up to the cap, each once and in order. */
  method CollectDocs(terms: seq<TermEntry>, maxExpansions: nat) returns (docs: seq<nat>)
    requires forall e :: e in terms ==> ValidEntry(e)
    ensures ValidDocs(docs)
    ensures Elements(docs) == CappedUnion(terms, maxExpansions)
  {
    docs := [];
    var expansions := 0;
    // `expansions` is also the number of terms the stream has advanced over
    while expansions < maxExpansions && expansions < |terms|
      invariant expansions <= Min(maxExpansions, |terms|)
      invariant Elements(docs) == Union(terms, expansions)
      invariant BelowEnd(docs)
    {
      var entry := terms[expansions];
      expansions := expansions + 1;
      ghost var before := docs;
      docs := ReadAllBlocks(entry, docs);
      FlattenBounded(entry.blocks);
      assert Elements(docs) == Elements(before) + Postings(entry);
    }
    docs := Canonical(docs);
    forall i | 0 <= i < |docs| ensures docs[i] < TERMINATED {
      assert docs[i] in Elements(docs);
    }
  }

  lemma {:induction false} FlattenBounded(blocks: seq<seq<nat>>)
    requires forall b :: b in blocks ==> BelowEnd(b)
    ensures BelowEnd(Flatten(blocks))
  {
    if blocks != [] {
      assert blocks[0] in blocks;
      assert forall b :: b in blocks[1..] ==> b in blocks;
      FlattenBounded(blocks[1..]);
    }
  }

  /** Sorting and then dropping repeats lists the set in order. */
  function Canonical(docs: seq<nat>): (r: seq<nat>)
    ensures StrictlyAscending(r) && Elements(r) == Elements(docs)
  {
    SortedSorts(docs);
    DedupMakesStrict(Sorted(docs));
    assert Elements(Sorted(docs)) == Elements(docs) by {
      assert forall d :: d in Sorted(docs) <==> d in multiset(Sorted(docs));
      assert forall d :: d in docs <==> d in multiset(docs);
    }
    DedupAdjacent(Sorted(docs))
  }

  ghost predicate InSomeBlock(blocks: seq<seq<nat>>, d: nat) {
    exists j :: 0 <= j < |blocks| && d in blocks[j]
  }

  lemma {:induction false} FlattenMembers(blocks: seq<seq<nat>>, d: nat)
    ensures d in Flatten(blocks) <==> InSomeBlock(blocks, d)
  {
    if blocks != [] {
      var tail := blocks[1..];
      FlattenMembers(tail, d);
      SomeBlockOf(blocks, d);
      hide InSomeBlock;
    }
  }

  lemma {:induction false} SomeBlockOf(blocks: seq<seq<nat>>, d: nat)
    requires blocks != []
    ensures InSomeBlock(blocks, d) <==> d in blocks[0] || InSomeBlock(blocks[1..], d)
  {
    if InSomeBlock(blocks[1..], d) {
      var j :| 0 <= j < |blocks[1..]| && d in blocks[1..][j];
      assert blocks[j + 1] == blocks[1..][j];
    }
  }

  /** A document is in a term's postings when one of its blocks has it. */
  lemma {:induction false} PostingsAre(e: TermEntry, d: nat)
    ensures d in Postings(e) <==> exists j :: 0 <= j < |e.blocks| && d in e.blocks[j]
  {
    FlattenMembers(e.blocks, d);
  }

  /** The capped union has the documents of the first `maxExpansions` terms and no others. */
  lemma {:induction false} CappedUnionIs(terms: seq<TermEntry>, maxExpansions: nat, d: nat)
    ensures d in CappedUnion(terms, maxExpansions) <==> exists i :: 0 <= i < |terms| && i < maxExpansions && d in Postings(terms[i])
  {
    UnionMembers(terms, Min(maxExpansions, |terms|), d);
  }

  /** A bigger cap only adds documents, and a cap of at least the number of terms loses none. */
  lemma {:induction false} CapIsMonotone(terms: seq<TermEntry>, low: nat, high: nat)
    requires low <= high
    ensures CappedUnion(terms, low) <= CappedUnion(terms, high)
    ensures high >= |terms| ==> CappedUnion(terms, high) == Union(terms, |terms|)
    decreases high - low
  {
    if low < high {
      CapIsMonotone(terms, low + 1, high);
    }
  }

  lemma {:induction false} UnionMembers(terms: seq<TermEntry>, n: nat, d: nat)
    requires n <= |terms|
    ensures d in Union(terms, n) <==> exists i :: 0 <= i < n && d in Postings(terms[i])
  {
    if n > 0 {
      UnionMembers(terms, n - 1, d);
    }
  }
}
