/** The ICU token stream: one loop over byte offsets that yields exactly the words of the text (tokenizer/icu.rs). */
module IcuTokens {
  import opened TextOffsets
  import opened WordSplitting
  import Utf8

  // ---- What a stream has still to yield ----

  /** The tokens of the spans, numbered from `position` on. */
  function TokensOf(s: Source, spans: seq<Span>, position: nat): (tokens: seq<Token>)
    requires Within(spans, 0, |s.text|)
    ensures |tokens| == |spans|
  {
    if spans == [] then []
    else
      assert spans[0] in spans && Within(spans[1..], 0, |s.text|);
      [TokenOf(s, spans[0], position)] + TokensOf(s, spans[1..], position + 1)
  }

  /** The spans left when characters `at` to `upto` of the open segment and the segments from `next` on are. */
  function SpansAhead(s: Source, at: nat, upto: nat, next: nat): (spans: seq<Span>)
    requires ValidSource(s) && next <= |s.marks| && at <= upto == MarkBefore(s, next)
    ensures Within(spans, 0, |s.text|)
  {
    PiecesAreOrdered(s, at, upto);
    SpansAreExact(s, next);
    Pieces(s, at, upto) + SpansFrom(s, next)
  }

  function Ahead(s: Source, at: nat, upto: nat, next: nat, position: nat): (r: seq<Token>)
    requires ValidSource(s) && next <= |s.marks| && at <= upto == MarkBefore(s, next)
  {
    TokensOf(s, SpansAhead(s, at, upto, next), position)
  }

  /** All tokens of a text. */
  function AllTokens(s: Source): (r: seq<Token>)
    requires ValidSource(s)
  {
    Ahead(s, 0, 0, 0, 0)
  }

  /** Where the first candidate of a stretch ends and where the stream goes on behind it. */
  function Cut(s: Source, a: nat, b: nat): (r: (nat, nat))
    requires a <= b <= |s.text|
    ensures a <= r.0 <= b && a <= r.1 <= b && (a < b ==> a < r.1)
  {
    if s.split then
      var e := RunEnd(s, a, b);
      (e, if e < b then e + 1 else b)
    else (b, b)
  }

  lemma {:induction false} PiecesStartAtCut(s: Source, a: nat, b: nat)
    requires a < b <= |s.text|
    ensures Pieces(s, a, b) == FirstPiece(s, a, b) + Pieces(s, Cut(s, a, b).1, b)
  {
    var e := RunEnd(s, a, b);
    if s.split && a < e {
      assert s.alphanumeric(s.text[a]);
    }
  }

  /** The first candidate, if it is a token. */
  function FirstPiece(s: Source, a: nat, b: nat): (r: seq<Span>)
    requires a <= b <= |s.text|
  {
    var cut := Cut(s, a, b).0;
    if AnyAlphanumeric(s, a, cut) then [Span(a, cut)] else []
  }

  lemma {:induction false} OpeningKeepsAhead(s: Source, next: nat, position: nat)
    requires ValidSource(s) && next < |s.marks|
    ensures MarkBefore(s, next) <= s.marks[next]
    ensures Ahead(s, MarkBefore(s, next), s.marks[next], next + 1, position)
         == Ahead(s, MarkBefore(s, next), MarkBefore(s, next), next, position)
  {
    var m := MarkBefore(s, next);
    assert Pieces(s, m, m) == [];
    assert SpansAhead(s, m, s.marks[next], next + 1) == SpansAhead(s, m, m, next);
  }

  lemma {:induction false} NothingAheadAtTheEnd(s: Source, position: nat)
    requires ValidSource(s)
    ensures Ahead(s, MarkBefore(s, |s.marks|), MarkBefore(s, |s.marks|), |s.marks|, position) == []
  {
    var m := MarkBefore(s, |s.marks|);
    assert Pieces(s, m, m) == [];
  }

  lemma {:induction false} CuttingTakesTheHead(s: Source, at: nat, upto: nat, next: nat, position: nat)
    requires ValidSource(s) && next <= |s.marks| && at < upto == MarkBefore(s, next)
    ensures var (cut, rest) := Cut(s, at, upto);
      Ahead(s, at, upto, next, position)
        == if AnyAlphanumeric(s, at, cut) then [TokenOf(s, Span(at, cut), position)] + Ahead(s, rest, upto, next, position + 1)
           else Ahead(s, rest, upto, next, position)
  {
    var (cut, rest) := Cut(s, at, upto);
    PiecesStartAtCut(s, at, upto);
    var whole, tail := SpansAhead(s, at, upto, next), SpansAhead(s, rest, upto, next);
    assert whole == FirstPiece(s, at, upto) + tail;
    if AnyAlphanumeric(s, at, cut) {
      assert whole[0] == Span(at, cut) && whole[1..] == tail;
    } else {
      assert whole == tail;
    }
  }

  // ---- The stream ----

  /** The boundaries as byte offsets. */
  ghost predicate Encodes(s: Source, boundaries: seq<nat>)
    requires ValidSource(s)
  {
    |boundaries| == |s.marks| && forall i :: 0 <= i < |boundaries| ==> boundaries[i] == ByteAt(s.width, s.text, s.marks[i])
  }

  /** `&text[start..end]` */
  method TextBetween(s: Source, start: nat, end: nat, ghost a: nat, ghost b: nat) returns (piece: string)
    requires a <= b <= |s.text| && start == ByteAt(s.width, s.text, a) && end == ByteAt(s.width, s.text, b)
    ensures piece == s.text[a..b]
  {
    SliceIsSubstring(s.width, s.text, a, b);
    piece := Slice(s.width, s.text, start, end);
  }

  /** The scan for a delimiter in `text[start..end]`: where the token ends and where the stream goes on. */
  method CutAtDelimiter(s: Source, start: nat, end: nat, ghost a: nat, ghost b: nat) returns (cut: nat, goOn: nat)
    requires s.split && a <= b <= |s.text| && start == ByteAt(s.width, s.text, a) && end == ByteAt(s.width, s.text, b)
    ensures cut == ByteAt(s.width, s.text, Cut(s, a, b).0) && goOn == ByteAt(s.width, s.text, Cut(s, a, b).1)
  {
    var piece := TextBetween(s, start, end, a, b);
    var relative := 0;
    for i := 0 to |piece|
      invariant start + relative == ByteAt(s.width, s.text, a + i)
      invariant RunEnd(s, a, b) == RunEnd(s, a + i, b)
    {
      var c := piece[i];
      assert c == s.text[a + i];
      NextOffset(s.width, s.text, a + i);
      if !s.alphanumeric(c) {
        cut := start + relative;
        return cut, cut + s.width(c);
      }
      relative := relative + s.width(c);
    }
    return end, end;
  }

  /** Whether `text[start..end]` is a token. */
  method IsToken(s: Source, start: nat, end: nat, ghost a: nat, ghost b: nat) returns (found: bool)
    requires a <= b <= |s.text| && start == ByteAt(s.width, s.text, a) && end == ByteAt(s.width, s.text, b)
    ensures found <==> AnyAlphanumeric(s, a, b)
  {
    if start == end {
      SameOffsetSameChar(s.width, s.text, a, b);
      return false;
    }
    var piece := TextBetween(s, start, end, a, b);
    found := HasAlphanumeric(piece, s.alphanumeric);
    assert forall i :: a <= i < b ==> piece[i - a] == s.text[i];
  }

  method HasAlphanumeric(piece: string, alphanumeric: char -> bool) returns (found: bool)
    ensures found <==> exists i :: 0 <= i < |piece| && alphanumeric(piece[i])
  {
    for i := 0 to |piece|
      invariant forall j :: 0 <= j < i ==> !alphanumeric(piece[j])
    {
      if alphanumeric(piece[i]) {
        return true;
      }
    }
    return false;
  }

  class IcuTokenStream {
    // the text and the mode; `source.marks` is for specification only
    const source: Source
    const boundaries: seq<nat>
    // the boundaries taken so far
    var next: nat
    var offset: nat
    var segmentEnd: nat
    var nextPosition: nat
    var token: Token

    // `offset` and `segmentEnd` as character indices
    ghost var at: nat
    ghost var upto: nat

    ghost predicate Consistent()
      reads this
    {
      && ValidSource(source) && Encodes(source, boundaries)
      && next <= |boundaries| && at <= upto == MarkBefore(source, next)
      && offset == ByteAt(source.width, source.text, at) && segmentEnd == ByteAt(source.width, source.text, upto)
    }

    /** Between calls, plain mode has used up its segment. */
    ghost predicate Valid()
      reads this
    {
      Consistent() && (!source.split ==> at == upto)
    }

    /** The tokens still to come. */
    ghost function Upcoming(): (r: seq<Token>)
      requires Consistent()
      reads this
    {
      Ahead(source, at, upto, next, nextPosition)
    }

    constructor (source: Source, boundaries: seq<nat>)
      requires ValidSource(source) && Encodes(source, boundaries)
      ensures Valid() && this.source == source && Upcoming() == AllTokens(source)
    {
      this.source, this.boundaries := source, boundaries;
      next, offset, segmentEnd, nextPosition := 0, 0, 0, 0;
      token := Token("", 0, 0, 0, 1);
      at, upto := 0, 0;
    }

    /** Opens the next segment. */
    method TakeBoundary()
      requires Consistent() && at == upto && next < |boundaries|
      modifies `next, `segmentEnd, `upto
      ensures Consistent() && next == old(next) + 1
      ensures Upcoming() == old(Upcoming())
    {
      hide Ahead;
      OpeningKeepsAhead(source, next, nextPosition);
      segmentEnd := boundaries[next];
      upto := source.marks[next];
      next := next + 1;
    }

    /** Cuts the next candidate off the open segment and moves behind it. */
    method CutCandidate() returns (start: nat, end: nat)
      requires Consistent() && at < upto
      modifies `offset, `at
      ensures Valid() && offset > old(offset)
      ensures at == Cut(source, old(at), upto).1
      ensures start == ByteAt(source.width, source.text, old(at))
      ensures end == ByteAt(source.width, source.text, Cut(source, old(at), upto).0)
    {
      start, end := offset, segmentEnd;
      offset := segmentEnd;
      if source.split {
        end, offset := CutAtDelimiter(source, start, end, at, upto);
      }
      ByteAtGrows(source.width, source.text, at, Cut(source, at, upto).1);
      at := Cut(source, at, upto).1;
    }

    /** Makes a token of the next candidate if it has an alphanumeric; passes over it otherwise. */
    method TryCandidate() returns (found: bool)
      requires Consistent() && at < upto
      modifies `offset, `at, `token, `nextPosition
      ensures Valid() && offset > old(offset)
      ensures found ==> old(Upcoming()) == [token] + Upcoming()
      ensures !found ==> Upcoming() == old(Upcoming()) && token == old(token)
    {
      hide Ahead;
      CuttingTakesTheHead(source, at, upto, next, nextPosition);
      ghost var a, cut := at, Cut(source, at, upto).0;
      var start, end := CutCandidate();
      found := IsToken(source, start, end, a, cut);
      if found {
        var text := TextBetween(source, start, end, a, cut);
        token := Token(text, start, end, nextPosition, 1);
        nextPosition := nextPosition + 1;
      }
    }

    /** The next token, exactly the first of those to come; at the end it stays at the end. */
    method Advance() returns (more: bool)
      requires Valid()
      modifies this
      ensures Valid()
      ensures more ==> old(Upcoming()) == [token] + Upcoming()
      ensures !more ==> old(Upcoming()) == Upcoming() == [] && token == old(token)
    {
      hide Ahead;
      while true
        invariant Valid() && Upcoming() == old(Upcoming()) && token == old(token)
        decreases |boundaries| - next, segmentEnd - offset
      {
        SameOffsetSameChar(source.width, source.text, at, upto);
        if offset == segmentEnd {
          if next == |boundaries| {
            NothingAheadAtTheEnd(source, nextPosition);
            return false;
          }
          TakeBoundary();
          SameOffsetSameChar(source.width, source.text, at, upto);
          if offset == segmentEnd {
            continue;
          }
        }
        var found := TryCandidate();
        if found {
          return true;
        }
      }
    }

    /** `token_mut`: a filter may change the current token in any way; what is still to come does not depend on it. */
    method EditToken(edited: Token)
      requires Valid()
      modifies `token
      ensures Valid() && token == edited
      ensures Upcoming() == old(Upcoming())
    {
      token := edited;
    }
  }

  /** One turn of a consumer: the next token, then edited by a filter. */
  method Pull(stream: IcuTokenStream, filter: Token -> Token) returns (more: bool, token: Token)
    requires stream.Valid()
    modifies stream
    ensures stream.Valid()
    ensures more ==> old(stream.Upcoming()) == [token] + stream.Upcoming()
    ensures !more ==> old(stream.Upcoming()) == stream.Upcoming() == []
  {
    more := stream.Advance();
    token := stream.token;
    if more {
      stream.EditToken(filter(token));
    }
  }

  /** The whole stream of a text, every token edited by a filter before the next is asked for: it yields exactly
      the tokens of the text. */
  method Process(source: Source, boundaries: seq<nat>, filter: Token -> Token) returns (tokens: seq<Token>)
    requires ValidSource(source) && Encodes(source, boundaries)
    ensures tokens == AllTokens(source)
  {
    hide Ahead, AllTokens;
    var stream := new IcuTokenStream(source, boundaries);
    ghost var all := stream.Upcoming();
    tokens := [];
    var more := true;
    while more
      invariant fresh(stream) && stream.Valid()
      invariant tokens + stream.Upcoming() == all
      invariant !more ==> stream.Upcoming() == []
      decreases |stream.Upcoming()|, more
    {
      var token;
      more, token := Pull(stream, filter);
      if more {
        tokens := tokens + [token];
      }
    }
  }

  // ---- What the tokens are ----

  lemma {:induction false} TokensAreNumbered(s: Source, spans: seq<Span>, position: nat, i: nat)
    requires Within(spans, 0, |s.text|) && i < |spans|
    ensures spans[i] in spans && TokensOf(s, spans, position)[i] == TokenOf(s, spans[i], position + i)
  {
    assert spans[0] in spans && Within(spans[1..], 0, |s.text|);
    if i > 0 {
      TokensAreNumbered(s, spans[1..], position + 1, i - 1);
    }
  }

  /** Token `i` of a text is numbered `i` and made from span `i`. */
  lemma {:induction false} TokenIsOfSpan(s: Source, i: nat)
    requires ValidSource(s)
    ensures |AllTokens(s)| == |SpansFrom(s, 0)|
    ensures i < |AllTokens(s)| ==>
      && SpansFrom(s, 0)[i].from < SpansFrom(s, 0)[i].to <= |s.text|
      && AllTokens(s)[i] == TokenOf(s, SpansFrom(s, 0)[i], i)
  {
    var spans := SpansFrom(s, 0);
    AllTokensAreOfSpans(s);
    hide AllTokens, SpansFrom, TokensOf, TokenOf;
    if i < |spans| {
      TokensAreNumbered(s, spans, 0, i);
    }
  }

  lemma {:induction false} AllTokensAreOfSpans(s: Source)
    requires ValidSource(s)
    ensures Within(SpansFrom(s, 0), 0, |s.text|) && AllTokens(s) == TokensOf(s, SpansFrom(s, 0), 0)
  {
    SpansAreExact(s, 0);
    hide TokensOf, SpansFrom;
    assert Pieces(s, 0, 0) == [];
    assert SpansAhead(s, 0, 0, 0) == SpansFrom(s, 0);
  }

  /** Every token is a slice of the text at its own byte offsets, behind the token before it, and numbered without
      gaps; in split mode it is all alphanumeric, in plain mode it has an alphanumeric. */
  lemma {:induction false} TokensAreSlices(s: Source, i: nat)
    requires ValidSource(s) && IsUtf8(s.width) && i < |AllTokens(s)|
    ensures var t := AllTokens(s)[i];
      && t.position == i && t.positionLength == 1
      && IsBoundary(s.width, s.text, t.offsetFrom) && IsBoundary(s.width, s.text, t.offsetTo) && t.offsetFrom < t.offsetTo
      && t.text == Slice(s.width, s.text, t.offsetFrom, t.offsetTo)
      && t.offsetTo == t.offsetFrom + |Utf8.Encode(t.text)|
      && (i > 0 ==> AllTokens(s)[i - 1].offsetTo <= t.offsetFrom)
      && (exists k :: 0 <= k < |t.text| && s.alphanumeric(t.text[k]))
      && (s.split ==> forall k :: 0 <= k < |t.text| ==> s.alphanumeric(t.text[k]))
  {
    TokenIsOfSpan(s, i);
    SpansAreExact(s, 0);
    var r := SpansFrom(s, 0)[i];
    assert r in SpansFrom(s, 0);
    SpanText(s, r, i);
    PieceText(s, r);
    if i > 0 {
      TokenIsBehind(s, i);
    }
    hide AllTokens, SpansFrom, IsBoundary, Slice, ByteAt, IsPiece;
  }

  lemma {:induction false} TokenIsBehind(s: Source, i: nat)
    requires ValidSource(s) && 0 < i < |AllTokens(s)|
    ensures AllTokens(s)[i - 1].offsetTo <= AllTokens(s)[i].offsetFrom
  {
    var spans := SpansFrom(s, 0);
    TokenIsOfSpan(s, i - 1);
    TokenIsOfSpan(s, i);
    SpansAreExact(s, 0);
    SameOffsetSameChar(s.width, s.text, spans[i - 1].to, spans[i].from);
    hide AllTokens, SpansFrom, ByteAt;
  }

  /** In ASCII text the offsets are character indices: a token is as long as its text. */
  lemma {:induction false} AsciiOffsetsCountCharacters(s: Source, i: nat)
    requires ValidSource(s) && IsUtf8(s.width) && i < |AllTokens(s)|
    requires forall k :: 0 <= k < |s.text| ==> s.text[k] <= '\U{7F}'
    ensures var t := AllTokens(s)[i];
      && t.offsetFrom < t.offsetTo <= |s.text| && t.offsetTo - t.offsetFrom == |t.text|
      && t.text == s.text[t.offsetFrom..t.offsetTo]
  {
    TokenIsOfSpan(s, i);
    var r := SpansFrom(s, 0)[i];
    AsciiByteAt(s.width, s.text, r.from);
    AsciiByteAt(s.width, s.text, r.to);
  }

  lemma {:induction false} AsciiByteAt(w: Width, text: string, i: nat)
    requires IsUtf8(w) && i <= |text| && forall k :: 0 <= k < |text| ==> text[k] <= '\U{7F}'
    ensures ByteAt(w, text, i) == i
  {
    ByteAtIsEncodedLength(w, text, i);
    Utf8.AsciiIsItsOwnEncoding(text[..i]);
  }

  lemma {:induction false} SpanText(s: Source, r: Span, i: nat)
    requires IsUtf8(s.width) && r.from < r.to <= |s.text|
    ensures var t := TokenOf(s, r, i);
      && IsBoundary(s.width, s.text, t.offsetFrom) && IsBoundary(s.width, s.text, t.offsetTo) && t.offsetFrom < t.offsetTo
      && t.text == Slice(s.width, s.text, t.offsetFrom, t.offsetTo)
      && t.offsetTo == t.offsetFrom + |Utf8.Encode(t.text)|
  {
    SliceIsSubstring(s.width, s.text, r.from, r.to);
    ByteAtGrows(s.width, s.text, r.from, r.to);
    EncodedSlice(s.width, s.text, r.from, r.to);
  }

  lemma {:induction false} PieceText(s: Source, r: Span)
    requires ValidSource(s) && r.from < r.to <= |s.text| && exists k :: 0 <= k < |s.marks| && IsPiece(s, k, r)
    ensures var text := s.text[r.from..r.to];
      && (exists k :: 0 <= k < |text| && s.alphanumeric(text[k]))
      && (s.split ==> forall k :: 0 <= k < |text| ==> s.alphanumeric(text[k]))
  {
    var text := s.text[r.from..r.to];
    assert forall k :: r.from <= k < r.to ==> text[k - r.from] == s.text[k];
    if s.split {
      assert s.alphanumeric(text[0]);
    }
  }
}
