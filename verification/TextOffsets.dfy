/** Byte offsets of the characters of a text. */
module TextOffsets {
  import Utf8

  /** The bytes each character takes: some positive number. */
  type Width = w: char -> nat | Positive(w) witness (c: char) => 1

  ghost predicate Positive(w: char -> nat) {
    forall c :: w(c) > 0
  }

  /** Where character `i` starts. */
  function ByteAt(w: Width, text: string, i: nat): (r: nat)
    requires i <= |text|
  {
    if i == 0 then 0 else ByteAt(w, text, i - 1) + w(text[i - 1])
  }

  lemma {:induction false} ByteAtGrows(w: Width, text: string, i: nat, j: nat)
    requires i < j <= |text|
    ensures ByteAt(w, text, i) < ByteAt(w, text, j)
  {
    if i < j - 1 {
      ByteAtGrows(w, text, i, j - 1);
    }
  }

  /** The number of whole characters, at most `n`, before a byte offset. */
  function CharsBefore(w: Width, text: string, offset: nat, n: nat): (k: nat)
    requires n <= |text|
    ensures k <= n
  {
    if n == 0 || ByteAt(w, text, n) <= offset then n else CharsBefore(w, text, offset, n - 1)
  }

  lemma {:induction false} CharsBeforeBoundary(w: Width, text: string, i: nat, n: nat)
    requires i <= n <= |text|
    ensures CharsBefore(w, text, ByteAt(w, text, i), n) == i
  {
    if i < n {
      ByteAtGrows(w, text, i, n);
      CharsBeforeBoundary(w, text, i, n - 1);
    }
  }

  predicate IsBoundary(w: Width, text: string, offset: nat) {
    exists i :: 0 <= i <= |text| && ByteAt(w, text, i) == offset
  }

  /** `&text[start..end]`: defined only between character boundaries. */
  function Slice(w: Width, text: string, start: nat, end: nat): (r: string)
    requires IsBoundary(w, text, start) && IsBoundary(w, text, end) && start <= end
  {
    SliceIsDefined(w, text, start, end);
    text[CharsBefore(w, text, start, |text|)..CharsBefore(w, text, end, |text|)]
  }

  lemma {:induction false} SliceIsDefined(w: Width, text: string, start: nat, end: nat)
    requires IsBoundary(w, text, start) && IsBoundary(w, text, end) && start <= end
    ensures CharsBefore(w, text, start, |text|) <= CharsBefore(w, text, end, |text|)
  {
    var i :| 0 <= i <= |text| && ByteAt(w, text, i) == start;
    var j :| 0 <= j <= |text| && ByteAt(w, text, j) == end;
    CharsBeforeBoundary(w, text, i, |text|);
    CharsBeforeBoundary(w, text, j, |text|);
    if j < i {
      ByteAtGrows(w, text, j, i);
    }
  }

  lemma {:induction false} SliceIsSubstring(w: Width, text: string, i: nat, j: nat)
    requires i <= j <= |text|
    ensures ByteAt(w, text, i) <= ByteAt(w, text, j)
    ensures IsBoundary(w, text, ByteAt(w, text, i)) && IsBoundary(w, text, ByteAt(w, text, j))
    ensures Slice(w, text, ByteAt(w, text, i), ByteAt(w, text, j)) == text[i..j]
  {
    if i < j {
      ByteAtGrows(w, text, i, j);
    }
    CharsBeforeBoundary(w, text, i, |text|);
    CharsBeforeBoundary(w, text, j, |text|);
  }

  lemma {:induction false} SameOffsetSameChar(w: Width, text: string, i: nat, j: nat)
    requires i <= j <= |text|
    ensures ByteAt(w, text, i) == ByteAt(w, text, j) <==> i == j
    ensures ByteAt(w, text, i) <= ByteAt(w, text, j)
  {
    if i < j {
      ByteAtGrows(w, text, i, j);
    }
  }

  lemma {:induction false} NextOffset(w: Width, text: string, i: nat)
    requires i < |text|
    ensures ByteAt(w, text, i + 1) == ByteAt(w, text, i) + w(text[i])
  {
  }

  // ---- UTF-8 ----

  /** `char::len_utf8` */
  function LenUtf8(c: char): (n: nat)
    ensures n == |Utf8.EncodeChar(c)|
  {
    if c < '\U{80}' then 1 else if c < '\U{800}' then 2 else if c < '\U{10000}' then 3 else 4
  }

  ghost predicate IsUtf8(w: Width) {
    forall c :: w(c) == |Utf8.EncodeChar(c)|
  }

  /** The widths the token stream is used with. */
  lemma {:induction false} LenUtf8IsAWidth()
    ensures Positive(LenUtf8) && IsUtf8(LenUtf8)
  {
    assert forall c :: LenUtf8(c) > 0;
  }

  lemma {:induction false} ByteAtIsEncodedLength(w: Width, text: string, i: nat)
    requires i <= |text| && IsUtf8(w)
    ensures ByteAt(w, text, i) == |Utf8.Encode(text[..i])|
  {
    if i > 0 {
      ByteAtIsEncodedLength(w, text, i - 1);
      assert text[..i] == text[..i - 1] + [text[i - 1]];
      Utf8.EncodeConcat(text[..i - 1], [text[i - 1]]);
    }
  }

  lemma {:induction false} EncodedSlice(w: Width, text: string, a: nat, b: nat)
    requires a <= b <= |text| && IsUtf8(w)
    ensures ByteAt(w, text, b) == ByteAt(w, text, a) + |Utf8.Encode(text[a..b])|
  {
    ByteAtIsEncodedLength(w, text, a);
    ByteAtIsEncodedLength(w, text, b);
    assert text[..b] == text[..a] + text[a..b];
    Utf8.EncodeConcat(text[..a], text[a..b]);
  }
}
