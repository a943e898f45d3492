/** UTF-8 (section 3 of RFC 3629): a byte prefix that is itself encoded text is a character prefix. */
module Utf8 {
  import opened Base

  function EncodeChar(c: char): (bytes: seq<byte>)
    ensures 1 <= |bytes| <= 4
  {
    var v := c as int;
    if v < 0x80 then [v]
    else if v < 0x800 then [0xC0 + v / 0x40, 0x80 + v % 0x40]
    else if v < 0x1_0000 then [0xE0 + v / 0x1000, 0x80 + v / 0x40 % 0x40, 0x80 + v % 0x40]
    else [0xF0 + v / 0x4_0000, 0x80 + v / 0x1000 % 0x40, 0x80 + v / 0x40 % 0x40, 0x80 + v % 0x40]
  }

  function Encode(s: string): (r: seq<byte>) {
    if s == "" then [] else EncodeChar(s[0]) + Encode(s[1..])
  }

  /** How many bytes, in terms of the code point; one byte is the code point itself. */
  lemma {:induction false} LengthFollowsCodePoint(c: char)
    ensures |EncodeChar(c)| == 1 <==> c as int <= 0x7F
    ensures |EncodeChar(c)| == 2 <==> 0x80 <= c as int <= 0x7FF
    ensures |EncodeChar(c)| == 3 <==> 0x800 <= c as int <= 0xFFFF
    ensures |EncodeChar(c)| == 4 <==> 0x1_0000 <= c as int <= 0x10_FFFF
    ensures c as int <= 0x7F ==> EncodeChar(c) == [c as int]
  {
  }

  /** The ranges of the bytes: the first one by the length, all others from 0x80 to 0xBF. */
  lemma {:induction false} BytesInRange(c: char)
    ensures var bytes := EncodeChar(c);
      && (|bytes| == 2 ==> 0xC2 <= bytes[0] <= 0xDF)
      && (|bytes| == 3 ==> 0xE0 <= bytes[0] <= 0xEF)
      && (|bytes| == 4 ==> 0xF0 <= bytes[0] <= 0xF4)
      && forall k :: 1 <= k < |bytes| ==> 0x80 <= bytes[k] <= 0xBF
  {
  }

  /** The code point that bytes of one character spell: the bits below the length mark of the first byte, then six from each other. */
  function CodePoint(bytes: seq<byte>): (v: int)
    requires 1 <= |bytes| <= 4
  {
    match |bytes|
    case 1 => bytes[0]
    case 2 => (bytes[0] as int - 0xC0) * 0x40 + (bytes[1] as int - 0x80)
    case 3 => (bytes[0] as int - 0xE0) * 0x1000 + (bytes[1] as int - 0x80) * 0x40 + (bytes[2] as int - 0x80)
    case _ =>
      (bytes[0] as int - 0xF0) * 0x4_0000 + (bytes[1] as int - 0x80) * 0x1000 + (bytes[2] as int - 0x80) * 0x40 + (bytes[3] as int - 0x80)
  }

  lemma {:induction false} CodePointReadsBack(c: char)
    ensures CodePoint(EncodeChar(c)) == c as int
  {
    SixBitDigits(c as int);
  }

  lemma {:induction false} SixBitDigits(v: nat)
    ensures v == v / 0x40 * 0x40 + v % 0x40
    ensures v == v / 0x1000 * 0x1000 + v / 0x40 % 0x40 * 0x40 + v % 0x40
    ensures v == v / 0x4_0000 * 0x4_0000 + v / 0x1000 % 0x40 * 0x1000 + v / 0x40 % 0x40 * 0x40 + v % 0x40
  {
    assert v / 0x40 / 0x40 == v / 0x1000 && v / 0x1000 / 0x40 == v / 0x4_0000;
  }

  /** The number of bytes a character takes is told by its first byte. */
  function LengthOf(first: byte): (r: nat) {
    if first < 0x80 then 1 else if first < 0xE0 then 2 else if first < 0xF0 then 3 else 4
  }

  lemma {:induction false} FirstByteTellsLength(c: char)
    ensures |EncodeChar(c)| == LengthOf(EncodeChar(c)[0])
  {
  }

  lemma {:induction false} EncodeCharIsInjective(c: char, d: char)
    requires EncodeChar(c) == EncodeChar(d)
    ensures c == d
  {
    CodePointReadsBack(c);
    CodePointReadsBack(d);
  }

  lemma {:induction false} EncodeConcat(s: string, t: string)
    ensures Encode(s + t) == Encode(s) + Encode(t)
  {
    if s == "" {
      assert s + t == t;
    } else {
      assert (s + t)[1..] == s[1..] + t;
      EncodeConcat(s[1..], t);
    }
  }

  /** ASCII text is its own encoding, byte for byte. */
  lemma {:induction false} AsciiIsItsOwnEncoding(s: string)
    requires forall k :: 0 <= k < |s| ==> s[k] <= '\U{7F}'
    ensures |Encode(s)| == |s| && forall k :: 0 <= k < |s| ==> Encode(s)[k] == s[k] as int
  {
    hide EncodeChar;
    if s != "" {
      LengthFollowsCodePoint(s[0]);
      AsciiIsItsOwnEncoding(s[1..]);
    }
  }

  /** No character's encoding is a proper prefix of another's: what starts with it starts with that character. */
  lemma {:induction false} EncodingIsPrefixFree(c: char, d: char, rest: seq<byte>)
    requires EncodeChar(c) <= EncodeChar(d) + rest
    ensures c == d
  {
    var whole := EncodeChar(d) + rest;
    FirstByteTellsLength(c);
    FirstByteTellsLength(d);
    assert EncodeChar(c)[0] == whole[0] == EncodeChar(d)[0];
    assert EncodeChar(c) == whole[..|EncodeChar(c)|] == EncodeChar(d);
    EncodeCharIsInjective(c, d);
  }

  /** Encoded text starts with encoded text exactly when the characters do. */
  lemma {:induction false} BytePrefixIsCharPrefix(prefix: string, term: string)
    ensures Encode(prefix) <= Encode(term) <==> prefix <= term
  {
    hide EncodeChar;
    if prefix == "" {
    } else if term == "" {
    } else if Encode(prefix) <= Encode(term) {
      var c, d := prefix[0], term[0];
      var rest := Encode(term[1..]);
      assert EncodeChar(c) <= EncodeChar(d) + rest by {
        assert Encode(prefix)[..|EncodeChar(c)|] == EncodeChar(c);
        assert Encode(term)[..|EncodeChar(c)|] == EncodeChar(c);
      }
      EncodingIsPrefixFree(c, d, rest);
      assert Encode(prefix)[|EncodeChar(c)|..] == Encode(prefix[1..]) && Encode(term)[|EncodeChar(c)|..] == rest;
      BytePrefixIsCharPrefix(prefix[1..], term[1..]);
    } else if prefix <= term {
      assert term == prefix + term[|prefix|..];
      EncodeConcat(prefix, term[|prefix|..]);
    }
  }

  /** `chars().take(n)`, also past the end. */
  function Take(s: string, n: nat): (r: string) {
    s[..Min(n, |s|)]
  }

  /** The byte test on a token's first `n` characters compares characters, even when `n` exceeds the token. */
  lemma {:induction false} PrefixTestComparesChars(token: string, n: nat, term: string)
    ensures Encode(Take(token, n)) <= Encode(term) <==>
      |term| >= Min(n, |token|) && forall i :: 0 <= i < Min(n, |token|) ==> term[i] == token[i]
  {
    var prefix := Take(token, n);
    BytePrefixIsCharPrefix(prefix, term);
    if |term| >= |prefix| && forall i :: 0 <= i < |prefix| ==> term[i] == token[i] {
      assert term[..|prefix|] == prefix;
    }
  }
}
