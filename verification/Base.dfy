/** Shared vocabulary: results, machine integers and the string operations of the Rust standard library. */
module Base {

  datatype Option<+T> = None | Some(value: T)

  datatype Error = InvalidStorage | InvalidQuery | InvalidOption(key: string) | Io

  datatype Result<+T> = Ok(value: T) | Err(error: Error) {
    predicate IsFailure() {
      Err?
    }

    function PropagateFailure<U>(): (r: Result<U>)
      requires Err?
    {
      Err(error)
    }

    function Extract(): (r: T)
      requires Ok?
    {
      value
    }
  }

  const U32_MAX: nat := 0xFFFF_FFFF
  const U64_MAX: nat := 0xFFFF_FFFF_FFFF_FFFF
  // usize of the 64-bit targets
  const USIZE_MAX: nat := U64_MAX

  type byte = b: int | 0 <= b < 256
  type u32 = n: nat | n <= U32_MAX
  type u64 = n: nat | n <= U64_MAX
  type usize = n: nat | n <= USIZE_MAX

  lemma {:induction false} Widths()
    ensures U32_MAX == 4_294_967_295 && U64_MAX == USIZE_MAX == 18_446_744_073_709_551_615
  {
  }

  function Min(a: int, b: int): (r: int) {
    if a <= b then a else b
  }

  /** `char::is_whitespace`: the Unicode White_Space property. */
  predicate IsWhitespace(c: char) {
    || '\t' <= c <= '\r'
    || c in {' ', '\U{0085}', '\U{00A0}', '\U{1680}', '\U{2028}', '\U{2029}', '\U{202F}', '\U{205F}', '\U{3000}'}
    || '\U{2000}' <= c <= '\U{200A}'
  }

  /** The 25 code points of White_Space in the Unicode character database. */
  lemma {:induction false} WhitespaceIs(c: char)
    ensures IsWhitespace(c) <==>
      c as int in {0x09, 0x0A, 0x0B, 0x0C, 0x0D, 0x20, 0x85, 0xA0, 0x1680, 0x2000, 0x2001, 0x2002, 0x2003, 0x2004, 0x2005, 0x2006,
                   0x2007, 0x2008, 0x2009, 0x200A, 0x2028, 0x2029, 0x202F, 0x205F, 0x3000}
  {
  }

  function TrimStart(s: string): (r: string) {
    if s != "" && IsWhitespace(s[0]) then TrimStart(s[1..]) else s
  }

  function TrimEnd(s: string): (r: string) {
    if s != "" && IsWhitespace(s[|s| - 1]) then TrimEnd(s[..|s| - 1]) else s
  }

  /** `str::trim` */
  function Trim(s: string): (r: string) {
    TrimEnd(TrimStart(s))
  }

  predicate Blank(s: string) {
    forall i :: 0 <= i < |s| ==> IsWhitespace(s[i])
  }

  /** `core` neither starts nor ends with whitespace. */
  predicate Bare(core: string) {
    core != "" ==> !IsWhitespace(core[0]) && !IsWhitespace(core[|core| - 1])
  }

  lemma {:induction false} TrimStartDropsBlanks(s: string) returns (head: string)
    ensures s == head + TrimStart(s) && Blank(head)
    ensures TrimStart(s) != "" ==> !IsWhitespace(TrimStart(s)[0])
  {
    head := "";
    if s != "" && IsWhitespace(s[0]) {
      var rest := TrimStartDropsBlanks(s[1..]);
      head := [s[0]] + rest;
    }
  }

  lemma {:induction false} TrimEndDropsBlanks(s: string) returns (tail: string)
    ensures s == TrimEnd(s) + tail && Blank(tail)
    ensures TrimEnd(s) != "" ==> !IsWhitespace(TrimEnd(s)[|TrimEnd(s)| - 1])
  {
    tail := "";
    if s != "" && IsWhitespace(s[|s| - 1]) {
      var rest := TrimEndDropsBlanks(s[..|s| - 1]);
      tail := rest + [s[|s| - 1]];
    }
  }

  /** Trimming removes whitespace, at both ends, and nothing else; no whitespace is left at either end. */
  lemma {:induction false} TrimDropsOuterBlanks(s: string) returns (head: string, tail: string)
    ensures s == head + Trim(s) + tail && Blank(head) && Blank(tail) && Bare(Trim(s))
  {
    head := TrimStartDropsBlanks(s);
    tail := TrimEndDropsBlanks(TrimStart(s));
    assert Trim(s) != "" ==> Trim(s)[0] == TrimStart(s)[0];
  }

  /** `str::split` on any character of `separators`: always at least one piece. */
  function Split(s: string, separators: set<char>): (pieces: seq<string>)
    ensures |pieces| > 0
  {
    if s == "" then [""]
    else
      var rest := Split(s[1..], separators);
      if s[0] in separators then [""] + rest else [[s[0]] + rest[0]] + rest[1..]
  }

  /** The pieces with separators put back between them. */
  function Join(pieces: seq<string>, separators: string): (r: string)
    requires |pieces| == |separators| + 1
  {
    if separators == "" then pieces[0] else pieces[0] + [separators[0]] + Join(pieces[1..], separators[1..])
  }

  lemma {:induction false} JoinBehind(c: char, pieces: seq<string>, separators: string)
    requires |pieces| == |separators| + 1
    ensures Join([[c] + pieces[0]] + pieces[1..], separators) == [c] + Join(pieces, separators)
  {
    var longer := [[c] + pieces[0]] + pieces[1..];
    assert longer[1..] == pieces[1..];
    if separators != "" {
      assert [c] + pieces[0] + [separators[0]] + Join(pieces[1..], separators[1..])
          == [c] + (pieces[0] + [separators[0]] + Join(pieces[1..], separators[1..]));
    }
  }

  /** Splitting cuts at every separator and nowhere else: the pieces have none, and with them put back they are the text. */
  lemma {:induction false} SplitCutsAtSeparators(s: string, separators: set<char>)
    ensures forall k, c :: 0 <= k < |Split(s, separators)| && c in Split(s, separators)[k] ==> c !in separators
    ensures var cuts := Filter(c => c in separators, s);
      |Split(s, separators)| == |cuts| + 1 && Join(Split(s, separators), cuts) == s
  {
    if s != "" {
      var rest := Split(s[1..], separators);
      var cuts := Filter(c => c in separators, s[1..]);
      SplitCutsAtSeparators(s[1..], separators);
      var pieces := Split(s, separators);
      if s[0] in separators {
        assert Filter(c => c in separators, s) == [s[0]] + cuts;
        assert pieces[1..] == rest && ([s[0]] + cuts)[1..] == cuts;
        assert Join(pieces, [s[0]] + cuts) == [s[0]] + Join(rest, cuts);
      } else {
        assert Filter(c => c in separators, s) == [] + cuts == cuts;
        JoinBehind(s[0], rest, cuts);
      }
    }
  }

  /** `str::replace` of a single character. */
  function Replace(s: string, from: char, to: string): (r: string) {
    if s == "" then "" else (if s[0] == from then to else [s[0]]) + Replace(s[1..], from, to)
  }

  lemma {:induction false} ReplaceOfOneChar(s: string, from: char, to: char)
    ensures |Replace(s, from, [to])| == |s|
    ensures forall i :: 0 <= i < |s| ==> Replace(s, from, [to])[i] == if s[i] == from then to else s[i]
  {
    if s != "" {
      ReplaceOfOneChar(s[1..], from, to);
    }
  }

  function MapSeq<T, U>(f: T -> U, s: seq<T>): (r: seq<U>)
    ensures |r| == |s| && forall i :: 0 <= i < |s| ==> r[i] == f(s[i])
  {
    if s == [] then [] else [f(s[0])] + MapSeq(f, s[1..])
  }

  function Filter<T>(p: T -> bool, s: seq<T>): (r: seq<T>) {
    if s == [] then [] else (if p(s[0]) then [s[0]] else []) + Filter(p, s[1..])
  }

  lemma {:induction false} FilterConcat<T>(p: T -> bool, a: seq<T>, b: seq<T>)
    ensures Filter(p, a + b) == Filter(p, a) + Filter(p, b)
  {
    if a == [] {
      assert a + b == b;
    } else {
      assert (a + b)[1..] == a[1..] + b && (a + b)[0] == a[0];
      FilterConcat(p, a[1..], b);
      var head := if p(a[0]) then [a[0]] else [];
      assert head + (Filter(p, a[1..]) + Filter(p, b)) == head + Filter(p, a[1..]) + Filter(p, b);
    }
  }

  /** Filtering keeps the elements that pass, one by one. */
  lemma {:induction false} FilterOfOne<T>(p: T -> bool, x: T)
    ensures Filter(p, [x]) == if p(x) then [x] else []
  {
    assert [x][1..] == [];
  }

  lemma {:induction false} FilterMembers<T>(p: T -> bool, s: seq<T>)
    ensures forall x :: x in Filter(p, s) <==> x in s && p(x)
  {
    if s != [] {
      FilterMembers(p, s[1..]);
      assert s == [s[0]] + s[1..];
    }
  }

  lemma {:induction false} SliceOfSlice<T>(s: seq<T>, start: nat, length: nat, a: nat, b: nat)
    requires start + length <= |s| && a <= b <= length
    ensures s[start..start + length][a..b] == s[start + a..start + b]
  {
    var x, y := s[start..start + length][a..b], s[start + a..start + b];
    assert |x| == b - a == |y|;
    forall i | 0 <= i < b - a ensures x[i] == y[i] {
      assert x[i] == s[start..start + length][a + i];
    }
  }

  function Flatten<T>(parts: seq<seq<T>>): (r: seq<T>) {
    if parts == [] then [] else parts[0] + Flatten(parts[1..])
  }

  lemma {:induction false} FlattenAppend<T>(parts: seq<seq<T>>, last: seq<T>)
    ensures Flatten(parts + [last]) == Flatten(parts) + last
  {
    if parts == [] {
      assert parts + [last] == [last];
      assert Flatten([last]) == last + Flatten<T>([]);
    } else {
      assert (parts + [last])[1..] == parts[1..] + [last];
      FlattenAppend(parts[1..], last);
    }
  }
}
