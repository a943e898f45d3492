/** Document cursors: the contract every doc set keeps, and the sorted-vector doc set that implements it (index.rs). */
module DocSets {
  import opened Base
  import opened Dedup

  // The engine's end marker: the largest signed 32-bit value
  const TERMINATED: nat := 0x7FFF_FFFF

  ghost predicate StrictlyAscending(docs: seq<nat>) {
    forall i, j :: 0 <= i < j < |docs| ==> docs[i] < docs[j]
  }

  ghost predicate ValidDocs(docs: seq<nat>) {
    StrictlyAscending(docs) && forall i :: 0 <= i < |docs| ==> docs[i] < TERMINATED
  }

  /** Documents are distinct, ascending and below the largest signed 32-bit value. */
  lemma {:induction false} ValidDocsIff(docs: seq<nat>)
    ensures ValidDocs(docs) <==>
      (forall i, j :: 0 <= i < j < |docs| ==> docs[i] < docs[j]) && forall d :: d in docs ==> d < 2_147_483_647
  {
    assert forall i :: 0 <= i < |docs| ==> docs[i] in docs;
  }

  // ---- The contract, on the list of documents a cursor has still to visit ----

  function Current(remaining: seq<nat>): (r: nat) {
    if remaining == [] then TERMINATED else remaining[0]
  }

  function AfterAdvance(remaining: seq<nat>): (r: seq<nat>) {
    if remaining == [] then [] else remaining[1..]
  }

  function AfterSeek(remaining: seq<nat>, target: nat): (r: seq<nat>) {
    if remaining == [] || remaining[0] >= target then remaining else AfterSeek(remaining[1..], target)
  }

  datatype Op = Advance | Seek(target: nat)

  function AfterOp(remaining: seq<nat>, op: Op): (r: seq<nat>) {
    match op case Advance => AfterAdvance(remaining) case Seek(target) => AfterSeek(remaining, target)
  }

  /** Seeking drops a prefix: exactly the documents below the target. */
  lemma {:induction false} SeekDropsPrefix(remaining: seq<nat>, target: nat)
    requires ValidDocs(remaining)
    ensures exists n: nat :: SplitsAt(remaining, target, n) && AfterSeek(remaining, target) == remaining[n..]
  {
    if remaining == [] || remaining[0] >= target {
      assert SplitsAt(remaining, target, 0) && remaining == remaining[0..];
    } else {
      var rest := remaining[1..];
      SeekDropsPrefix(rest, target);
      var m: nat :| SplitsAt(rest, target, m) && AfterSeek(rest, target) == rest[m..];
      SplitBehindHead(remaining, target, m);
      assert rest[m..] == remaining[m + 1..];
    }
  }

  /** The first `n` documents, and no others, are below the target. */
  ghost predicate SplitsAt(remaining: seq<nat>, target: nat, n: nat) {
    && n <= |remaining|
    && (forall i :: 0 <= i < n ==> remaining[i] < target)
    && (forall i :: n <= i < |remaining| ==> remaining[i] >= target)
  }

  lemma {:induction false} SplitBehindHead(remaining: seq<nat>, target: nat, m: nat)
    requires remaining != [] && remaining[0] < target && SplitsAt(remaining[1..], target, m)
    ensures SplitsAt(remaining, target, m + 1)
  {
    assert forall i :: 1 <= i < |remaining| ==> remaining[i] == remaining[1..][i - 1];
  }

  lemma {:induction false} SeekIsTheSuffix(remaining: seq<nat>, target: nat, n: nat)
    requires n <= |remaining| && forall i :: 0 <= i < n ==> remaining[i] < target
    requires n < |remaining| ==> remaining[n] >= target
    ensures AfterSeek(remaining, target) == remaining[n..]
  {
    if n > 0 {
      SeekIsTheSuffix(remaining[1..], target, n - 1);
      assert remaining[1..][n - 1..] == remaining[n..];
    }
  }

  lemma {:induction false} AfterOpIsASuffix(remaining: seq<nat>, op: Op)
    requires ValidDocs(remaining)
    ensures exists n :: 0 <= n <= |remaining| && AfterOp(remaining, op) == remaining[n..]
    ensures ValidDocs(AfterOp(remaining, op))
    ensures Current(remaining) <= Current(AfterOp(remaining, op))
  {
    match op {
      case Advance =>
        if remaining == [] {
          assert AfterOp(remaining, op) == remaining[0..];
        } else {
          assert AfterOp(remaining, op) == remaining[1..];
        }
      case Seek(target) => SeekDropsPrefix(remaining, target);
    }
  }

  // ---- The same contract on sets ----

  ghost predicate IsLeast(s: set<nat>, d: nat) {
    if s == {} then d == TERMINATED else d in s && forall e :: e in s ==> d <= e
  }

  ghost function SetAfterOp(s: set<nat>, current: nat, op: Op): (r: set<nat>) {
    match op
    case Advance => s - {current}
    case Seek(target) => set d | d in s && d >= target
  }

  /** A list cursor is a cursor over the set of its documents: `Current` is the least one left, advancing removes
      it, seeking removes what lies below the target. */
  lemma {:induction false} ListCursorIsSetCursor(remaining: seq<nat>, op: Op)
    requires ValidDocs(remaining)
    ensures IsLeast(Elements(remaining), Current(remaining))
    ensures Elements(AfterOp(remaining, op)) == SetAfterOp(Elements(remaining), Current(remaining), op)
  {
    if remaining != [] {
      assert remaining[0] in Elements(remaining);
      assert Distinct(remaining);
      DistinctTail(remaining);
    }
    if op.Seek? {
      SeekDropsPrefix(remaining, op.target);
    }
  }

  function AfterOps(remaining: seq<nat>, ops: seq<Op>): (r: seq<nat>) {
    if ops == [] then remaining else AfterOp(AfterOps(remaining, ops[..|ops| - 1]), ops[|ops| - 1])
  }

  /** Over any run the documents never decrease and the end is final. */
  lemma {:induction false} RunNeverGoesBack(remaining: seq<nat>, ops: seq<Op>, k: nat)
    requires ValidDocs(remaining) && k <= |ops|
    ensures ValidDocs(AfterOps(remaining, ops))
    ensures Current(AfterOps(remaining, ops[..k])) <= Current(AfterOps(remaining, ops))
    ensures AfterOps(remaining, ops[..k]) == [] ==> AfterOps(remaining, ops) == []
  {
    if k == |ops| {
      assert ops[..k] == ops;
      if ops != [] {
        RunNeverGoesBack(remaining, ops[..k - 1], k - 1);
        AfterOpIsASuffix(AfterOps(remaining, ops[..k - 1]), ops[k - 1]);
      }
    } else {
      var n := |ops| - 1;
      assert ops[..n][..k] == ops[..k];
      RunNeverGoesBack(remaining, ops[..n], k);
      AfterOpIsASuffix(AfterOps(remaining, ops[..n]), ops[n]);
    }
  }

  // ---- The implementation ----

  lemma {:induction false} DocsAreFewerThanTerminated(docs: seq<nat>, n: nat)
    requires ValidDocs(docs) && n <= |docs|
    ensures n > 0 ==> n - 1 <= docs[n - 1]
    ensures n <= TERMINATED
  {
    if n > 1 {
      DocsAreFewerThanTerminated(docs, n - 1);
    }
  }

  /** `slice::partition_point` for "below target" on a sorted slice: a binary search. */
  method PartitionPoint(docs: seq<nat>, target: nat) returns (k: nat)
    requires StrictlyAscending(docs)
    ensures k <= |docs|
    ensures forall i :: 0 <= i < k ==> docs[i] < target
    ensures forall i :: k <= i < |docs| ==> docs[i] >= target
  {
    var lo, hi := 0, |docs|;
    while lo < hi
      invariant lo <= hi <= |docs|
      invariant forall i :: 0 <= i < lo ==> docs[i] < target
      invariant forall i :: hi <= i < |docs| ==> docs[i] >= target
    {
      var mid := lo + (hi - lo) / 2;
      if docs[mid] < target {
        lo := mid + 1;
      } else {
        hi := mid;
      }
    }
    k := lo;
  }

  class SortedDocSet {
    const docs: seq<nat>
    var cursor: nat
    var doc: nat

    ghost predicate Valid()
      reads this
    {
      && ValidDocs(docs)
      && cursor <= |docs|
      && doc == Current(Remaining())
    }

    ghost function Remaining(): (r: seq<nat>)
      reads this
    {
      if cursor <= |docs| then docs[cursor..] else []
    }

    constructor (docs: seq<nat>)
      requires ValidDocs(docs)
      ensures Valid() && this.docs == docs && Remaining() == docs
    {
      this.docs := docs;
      cursor := 0;
      doc := if docs == [] then TERMINATED else docs[0];
    }

    method Advance() returns (r: nat)
      requires Valid()
      modifies this
      ensures Valid()
      ensures Remaining() == AfterAdvance(old(Remaining())) && r == Current(Remaining())
    {
      if doc == TERMINATED {
        return TERMINATED;
      }
      cursor := cursor + 1;
      doc := if cursor < |docs| then docs[cursor] else TERMINATED;
      r := doc;
    }

    method Seek(target: nat) returns (r: nat)
      requires Valid()
      modifies this
      ensures Valid()
      ensures Remaining() == AfterSeek(old(Remaining()), target) && r == Current(Remaining())
    {
      if doc >= target {
        return doc;
      }
      var rest := docs[cursor..];
      var relative := PartitionPoint(rest, target);
      SeekIsTheSuffix(rest, target, relative);
      assert rest[relative..] == docs[cursor + relative..];
      cursor := cursor + relative;
      doc := if cursor < |docs| then docs[cursor] else TERMINATED;
      r := doc;
    }

    method Doc() returns (r: nat)
      requires Valid()
      ensures r == Current(Remaining())
    {
      r := doc;
    }

    /** Exact, and never cut by the conversion to 32 bits. */
    method SizeHint() returns (r: u32)
      requires Valid()
      ensures r == |Remaining()|
    {
      if doc == TERMINATED {
        return 0;
      }
      DocsAreFewerThanTerminated(docs, |docs|);
      r := |docs| - cursor;
    }
  }
}
