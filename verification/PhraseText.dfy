/** The text of a phrase query: quoting, escaping and the slop suffix (index.rs). */
module PhraseText {
  import opened Base

  /** One character's escape. */
  function EscapeChar(c: char): (r: string) {
    if c == '\\' || c == '"' then ['\\', c] else [c]
  }

  function Escape(s: string): (r: string) {
    if s == "" then "" else EscapeChar(s[0]) + Escape(s[1..])
  }

  /** The program's two replacements: first every backslash, then every quote. */
  function EscapeInTwoPasses(s: string): (r: string) {
    Replace(Replace(s, '\\', "\\\\"), '"', "\\\"")
  }

  lemma {:induction false} ReplaceConcat(s: string, t: string, from: char, to: string)
    ensures Replace(s + t, from, to) == Replace(s, from, to) + Replace(t, from, to)
  {
    if s == "" {
      assert s + t == t;
    } else {
      assert (s + t)[1..] == s[1..] + t;
      ReplaceConcat(s[1..], t, from, to);
    }
  }

  /** The second pass does not disturb what the first one inserted. */
  lemma {:induction false} TwoPassesEscapeEachCharOnce(s: string)
    ensures EscapeInTwoPasses(s) == Escape(s)
  {
    if s != "" {
      TwoPassesEscapeEachCharOnce(s[1..]);
      var head := if s[0] == '\\' then "\\\\" else [s[0]];
      ReplaceConcat(head, Replace(s[1..], '\\', "\\\\"), '"', "\\\"");
      assert Replace(head, '"', "\\\"") == EscapeChar(s[0]) by {
        if s[0] == '\\' {
          assert head[1..] == "\\" && head[1..][1..] == "";
        } else {
          assert head[1..] == "";
        }
      }
    }
  }

  function Digits(n: nat): (r: string) {
    (if n < 10 then "" else Digits(n / 10)) + [('0' as int + n % 10) as char]
  }

  function Suffix(slop: nat): (r: string) {
    if slop == 0 then "" else "~" + Digits(slop)
  }

  function QueryText(terms: string, slop: nat): (r: string) {
    "\"" + EscapeInTwoPasses(terms) + "\"" + Suffix(slop)
  }

  /** Reads a quoted phrase whose opening quote is gone: a backslash quotes the next character, a bare quote ends it. */
  function ReadQuoted(s: string): (r: Option<(string, string)>) {
    if s == "" then None
    else if s[0] == '"' then Some(("", s[1..]))
    else if s[0] == '\\' then
      if |s| == 1 then None
      else
        (match ReadQuoted(s[2..])
         case None => None
         case Some((phrase, rest)) => Some(([s[1]] + phrase, rest)))
    else
      match ReadQuoted(s[1..])
      case None => None
      case Some((phrase, rest)) => Some(([s[0]] + phrase, rest))
  }

  lemma {:induction false} QuotedReadsBack(terms: string, rest: string)
    ensures ReadQuoted(Escape(terms) + "\"" + rest) == Some((terms, rest))
  {
    var s := Escape(terms) + "\"" + rest;
    if terms == "" {
      assert s == "\"" + rest && s[1..] == rest;
    } else {
      QuotedReadsBack(terms[1..], rest);
      var tail := Escape(terms[1..]) + "\"" + rest;
      assert s == EscapeChar(terms[0]) + tail;
      assert s[|EscapeChar(terms[0])|..] == tail;
      assert terms == [terms[0]] + terms[1..];
    }
  }

  /** Whatever the terms contain, a reader of the query text finds exactly them, and the slop suffix behind them. */
  lemma {:induction false} PhraseRoundTrip(terms: string, slop: nat)
    ensures QueryText(terms, slop)[0] == '"'
    ensures ReadQuoted(QueryText(terms, slop)[1..]) == Some((terms, Suffix(slop)))
  {
    TwoPassesEscapeEachCharOnce(terms);
    QuotedReadsBack(terms, Suffix(slop));
    assert QueryText(terms, slop)[1..] == Escape(terms) + "\"" + Suffix(slop);
  }

  function ReadDigits(s: string, acc: nat): (r: nat) {
    if s == "" || !('0' <= s[0] <= '9') then acc else ReadDigits(s[1..], 10 * acc + (s[0] as int - '0' as int))
  }

  lemma {:induction false} ReadDigitsStep(s: string, acc: nat, c: char)
    requires '0' <= c <= '9' && forall i :: 0 <= i < |s| ==> '0' <= s[i] <= '9'
    ensures ReadDigits(s + [c], acc) == 10 * ReadDigits(s, acc) + (c as int - '0' as int)
  {
    if s == "" {
      assert (s + [c])[1..] == "";
    } else {
      assert (s + [c])[1..] == s[1..] + [c];
      ReadDigitsStep(s[1..], 10 * acc + (s[0] as int - '0' as int), c);
    }
  }

  /** The suffix tells the slop. */
  lemma {:induction false} SlopReadsBack(slop: nat)
    ensures forall i :: 0 <= i < |Digits(slop)| ==> '0' <= Digits(slop)[i] <= '9'
    ensures ReadDigits(Digits(slop), 0) == slop
    ensures slop != 0 ==> Suffix(slop)[0] == '~' && ReadDigits(Suffix(slop)[1..], 0) == slop
  {
    var last := ('0' as int + slop % 10) as char;
    if slop >= 10 {
      SlopReadsBack(slop / 10);
      ReadDigitsStep(Digits(slop / 10), 0, last);
    } else {
      ReadDigitsStep("", 0, last);
      assert "" + [last] == Digits(slop);
    }
    if slop != 0 {
      assert Suffix(slop)[1..] == Digits(slop);
    }
  }

  /** A quoted phrase and its slop, as a reader of the text finds them. */
  function ReadPhrase(text: string): (r: Option<(string, nat)>) {
    if text == "" || text[0] != '"' then None
    else
      match ReadQuoted(text[1..])
      case None => None
      case Some((terms, rest)) =>
        if rest == "" then Some((terms, 0))
        else if rest[0] == '~' then Some((terms, ReadDigits(rest[1..], 0)))
        else None
  }

  /** The query text of a phrase reads back as its terms and its slop. */
  lemma {:induction false} PhraseReadsBack(terms: string, slop: nat)
    ensures ReadPhrase(QueryText(terms, slop)) == Some((terms, slop))
  {
    PhraseRoundTrip(terms, slop);
    SlopReadsBack(slop);
    var text, rest := QueryText(terms, slop), Suffix(slop);
    assert text != "" && (rest == "" <==> slop == 0);
    assert ReadPhrase(text) == Some((terms, slop)) by {
      hide QueryText, Suffix, ReadQuoted, Digits;
    }
  }
}
