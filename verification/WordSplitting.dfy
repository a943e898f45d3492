/** The words of a text, said declaratively: segments with an alphanumeric, or maximal alphanumeric runs (tokenizer/icu.rs). */
module WordSplitting {
  import opened TextOffsets

  datatype Span = Span(from: nat, to: nat)

  datatype Token = Token(text: string, offsetFrom: nat, offsetTo: nat, position: nat, positionLength: nat)

  /** What the stream splits: a text, the segmenter's boundaries as character indices, the character class,
      the character widths, the mode. */
  datatype Source = Source(text: string, marks: seq<nat>, alphanumeric: char -> bool, width: Width, split: bool)

  /** The segmenter's contract: boundaries never go back and the last one ends the text. */
  ghost predicate ValidSource(s: Source) {
    && (forall i, j :: 0 <= i <= j < |s.marks| ==> s.marks[i] <= s.marks[j])
    && (forall i :: 0 <= i < |s.marks| ==> s.marks[i] <= |s.text|)
    && (if s.marks == [] then s.text == "" else s.marks[|s.marks| - 1] == |s.text|)
  }

  predicate AllAlphanumeric(s: Source, from: nat, to: nat)
    requires to <= |s.text|
  {
    forall i :: from <= i < to ==> s.alphanumeric(s.text[i])
  }

  predicate AnyAlphanumeric(s: Source, from: nat, to: nat)
    requires to <= |s.text|
  {
    exists i :: from <= i < to && s.alphanumeric(s.text[i])
  }

  /** A maximal alphanumeric run of the segment from `a` to `b`. */
  predicate IsRun(s: Source, a: nat, b: nat, r: Span)
    requires b <= |s.text|
  {
    && a <= r.from < r.to <= b
    && AllAlphanumeric(s, r.from, r.to)
    && (r.from == a || !s.alphanumeric(s.text[r.from - 1]))
    && (r.to == b || !s.alphanumeric(s.text[r.to]))
  }

  function RunEnd(s: Source, a: nat, b: nat): (e: nat)
    requires a <= b <= |s.text|
    ensures a <= e <= b && AllAlphanumeric(s, a, e)
    ensures e < b ==> !s.alphanumeric(s.text[e])
    decreases b - a
  {
    if a == b || !s.alphanumeric(s.text[a]) then a else RunEnd(s, a + 1, b)
  }

  function Runs(s: Source, a: nat, b: nat): (r: seq<Span>)
    requires a <= b <= |s.text|
    decreases b - a
  {
    if a == b then []
    else
      var e := RunEnd(s, a, b);
      var tail := if e < b then Runs(s, e + 1, b) else [];
      if a < e then [Span(a, e)] + tail else tail
  }

  /** The tokens of one segment. */
  function Pieces(s: Source, a: nat, b: nat): (r: seq<Span>)
    requires a <= b <= |s.text|
  {
    if s.split then Runs(s, a, b) else if AnyAlphanumeric(s, a, b) then [Span(a, b)] else []
  }

  function MarkBefore(s: Source, k: nat): (r: nat)
    requires k <= |s.marks|
  {
    if k == 0 then 0 else s.marks[k - 1]
  }

  /** The tokens of the segments from the `k`-th on. */
  function SpansFrom(s: Source, k: nat): (r: seq<Span>)
    requires ValidSource(s) && k <= |s.marks|
    decreases |s.marks| - k
  {
    if k == |s.marks| then [] else Pieces(s, MarkBefore(s, k), s.marks[k]) + SpansFrom(s, k + 1)
  }

  function TokenOf(s: Source, span: Span, position: nat): (r: Token)
    requires span.from <= span.to <= |s.text|
  {
    Token(s.text[span.from..span.to], ByteAt(s.width, s.text, span.from), ByteAt(s.width, s.text, span.to), position, 1)
  }

  // ---- What the splitting is ----

  ghost predicate InOrder(spans: seq<Span>) {
    forall i, j :: 0 <= i < j < |spans| ==> spans[i].to <= spans[j].from
  }

  ghost predicate Within(spans: seq<Span>, a: nat, b: nat) {
    forall r :: r in spans ==> a <= r.from < r.to <= b
  }

  lemma {:induction false} OrderedConcat(xs: seq<Span>, ys: seq<Span>, a: nat, m: nat, b: nat)
    requires InOrder(xs) && InOrder(ys) && Within(xs, a, m) && Within(ys, m, b) && a <= m <= b
    ensures InOrder(xs + ys) && Within(xs + ys, a, b)
  {
    forall i, j | 0 <= i < |xs| && 0 <= j < |ys| ensures xs[i].to <= ys[j].from {
      assert xs[i] in xs && ys[j] in ys;
    }
  }

  lemma {:induction false} RunsSplit(s: Source, a: nat, b: nat, r: Span)
    requires a < b <= |s.text|
    ensures var e := RunEnd(s, a, b);
      IsRun(s, a, b, r) <==> (a < e && r == Span(a, e)) || (e < b && IsRun(s, e + 1, b, r))
  {
  }

  /** The runs of a segment are all its maximal alphanumeric runs. */
  lemma {:induction false} RunsAreTheMaximalOnes(s: Source, a: nat, b: nat)
    requires a <= b <= |s.text|
    ensures forall r :: r in Runs(s, a, b) <==> IsRun(s, a, b, r)
    decreases b - a
  {
    if a < b {
      var e := RunEnd(s, a, b);
      if e < b {
        RunsAreTheMaximalOnes(s, e + 1, b);
      }
      forall r ensures r in Runs(s, a, b) <==> IsRun(s, a, b, r) {
        RunsSplit(s, a, b, r);
      }
    }
  }

  lemma {:induction false} RunsAreOrdered(s: Source, a: nat, b: nat)
    requires a <= b <= |s.text|
    ensures InOrder(Runs(s, a, b)) && Within(Runs(s, a, b), a, b)
    decreases b - a
  {
    if a < b {
      var e := RunEnd(s, a, b);
      var tail := [];
      if e < b {
        RunsAreOrdered(s, e + 1, b);
        tail := Runs(s, e + 1, b);
      }
      if a < e {
        OrderedCons(a, e, tail, b);
      }
    }
  }

  lemma {:induction false} OrderedCons(a: nat, e: nat, tail: seq<Span>, b: nat)
    requires a < e <= b && InOrder(tail) && (tail == [] || Within(tail, e + 1, b))
    ensures InOrder([Span(a, e)] + tail) && Within([Span(a, e)] + tail, a, b)
  {
    assert Within(tail, e, b);
    OrderedConcat([Span(a, e)], tail, a, e, b);
  }

  lemma {:induction false} PiecesAreOrdered(s: Source, a: nat, b: nat)
    requires a <= b <= |s.text|
    ensures InOrder(Pieces(s, a, b)) && Within(Pieces(s, a, b), a, b)
  {
    RunsAreOrdered(s, a, b);
  }

  /** What a token is, said of the text alone: in plain mode a segment with an alphanumeric, in split mode a maximal
      alphanumeric run of a segment. */
  ghost predicate IsPiece(s: Source, k: nat, r: Span)
    requires ValidSource(s) && k < |s.marks|
  {
    var a, b := MarkBefore(s, k), s.marks[k];
    if s.split then IsRun(s, a, b, r) else r == Span(a, b) && AnyAlphanumeric(s, a, b)
  }

  lemma {:induction false} PiecesAreExact(s: Source, k: nat)
    requires ValidSource(s) && k < |s.marks|
    ensures var pieces := Pieces(s, MarkBefore(s, k), s.marks[k]);
      && InOrder(pieces) && Within(pieces, MarkBefore(s, k), s.marks[k])
      && forall r :: r in pieces <==> IsPiece(s, k, r)
  {
    RunsAreTheMaximalOnes(s, MarkBefore(s, k), s.marks[k]);
    PiecesAreOrdered(s, MarkBefore(s, k), s.marks[k]);
  }

  /** All pieces of all segments, and nothing else, in text order. */
  lemma {:induction false} SpansAreExact(s: Source, k: nat)
    requires ValidSource(s) && k <= |s.marks|
    ensures forall r :: r in SpansFrom(s, k) <==> exists j :: k <= j < |s.marks| && IsPiece(s, j, r)
    ensures InOrder(SpansFrom(s, k)) && Within(SpansFrom(s, k), MarkBefore(s, k), |s.text|)
    decreases |s.marks| - k
  {
    if k < |s.marks| {
      PiecesAreExact(s, k);
      SpansAreExact(s, k + 1);
      OrderedConcat(Pieces(s, MarkBefore(s, k), s.marks[k]), SpansFrom(s, k + 1), MarkBefore(s, k), s.marks[k], |s.text|);
    }
  }

  /** Every character lies in one segment. */
  lemma {:induction false} SegmentOf(s: Source, i: nat, n: nat) returns (k: nat)
    requires ValidSource(s) && n <= |s.marks| && i < MarkBefore(s, n)
    ensures k < |s.marks| && MarkBefore(s, k) <= i < s.marks[k]
  {
    if MarkBefore(s, n - 1) <= i {
      k := n - 1;
    } else {
      k := SegmentOf(s, i, n - 1);
    }
  }

  lemma {:induction false} RunAround(s: Source, a: nat, b: nat, i: nat) returns (r: Span)
    requires a <= i < b <= |s.text| && s.alphanumeric(s.text[i])
    ensures IsRun(s, a, b, r) && r.from <= i < r.to
    decreases i - a
  {
    var e := RunEnd(s, a, b);
    if i < e {
      r := Span(a, e);
    } else {
      assert e != i;
      r := RunAround(s, e + 1, b, i);
      RunsSplit(s, a, b, r);
    }
  }

  lemma {:induction false} PieceAround(s: Source, i: nat) returns (r: Span)
    requires ValidSource(s) && i < |s.text| && s.alphanumeric(s.text[i])
    ensures r in SpansFrom(s, 0) && r.from <= i < r.to
  {
    var k := SegmentOf(s, i, |s.marks|);
    if s.split {
      r := RunAround(s, MarkBefore(s, k), s.marks[k], i);
    } else {
      r := Span(MarkBefore(s, k), s.marks[k]);
    }
    assert IsPiece(s, k, r);
    SpansAreExact(s, 0);
  }

  /** Span `k` is the only one that holds character `i`. */
  ghost predicate HoldsAlone(spans: seq<Span>, k: nat, i: nat) {
    && k < |spans| && spans[k].from <= i < spans[k].to
    && forall j :: 0 <= j < |spans| && spans[j].from <= i < spans[j].to ==> j == k
  }

  lemma {:induction false} OrderedHoldOnce(spans: seq<Span>, r: Span, i: nat)
    requires InOrder(spans) && r in spans && r.from <= i < r.to
    ensures exists k :: HoldsAlone(spans, k, i)
  {
    var k :| 0 <= k < |spans| && spans[k] == r;
    assert HoldsAlone(spans, k, i);
  }

  /** Every alphanumeric character is in exactly one token. */
  lemma {:induction false} AlphanumericsAreKeptOnce(s: Source, i: nat)
    requires ValidSource(s) && i < |s.text| && s.alphanumeric(s.text[i])
    ensures exists k :: HoldsAlone(SpansFrom(s, 0), k, i)
  {
    SpansAreExact(s, 0);
    var r := PieceAround(s, i);
    OrderedHoldOnce(SpansFrom(s, 0), r, i);
  }
}
