/** Left folds, and when a fold over an unordered collection does not depend on the order it is visited in. */
module OrderedFold {
  import opened Base

  /** All items parsed, or the error of the first one that does not parse. */
  function ParseAll<A, B>(parse: A -> Result<B>, items: seq<A>): (r: Result<seq<B>>)
    ensures r.Ok? ==> |r.value| == |items| && forall i :: 0 <= i < |items| ==> parse(items[i]) == Ok(r.value[i])
    ensures r.Ok? <==> forall a :: a in items ==> parse(a).Ok?
  {
    if items == [] then Ok([])
    else
      assert items == items[..|items| - 1] + [items[|items| - 1]];
      var init :- ParseAll(parse, items[..|items| - 1]);
      var last :- parse(items[|items| - 1]);
      Ok(init + [last])
  }

  lemma {:induction false} FirstFailureWins<A, B>(parse: A -> Result<B>, items: seq<A>, n: nat)
    requires n <= |items| && ParseAll(parse, items[..n]).Err?
    ensures ParseAll(parse, items) == ParseAll(parse, items[..n])
    decreases |items|
  {
    if n < |items| {
      var m := |items| - 1;
      assert items[..m][..n] == items[..n];
      FirstFailureWins(parse, items[..m], n);
    } else {
      assert items[..n] == items;
    }
  }

  lemma {:induction false} ParseAllAppend<A, B>(parse: A -> Result<B>, items: seq<A>, last: A)
    requires ParseAll(parse, items + [last]).Ok?
    ensures ParseAll(parse, items).Ok? && parse(last).Ok?
    ensures ParseAll(parse, items + [last]).value == ParseAll(parse, items).value + [parse(last).value]
  {
    assert (items + [last])[..|items|] == items;
  }

  /** Reordering the items reorders what they parse to. */
  lemma {:induction false} ParseAllPermuted<A, B>(parse: A -> Result<B>, xs: seq<A>, ys: seq<A>)
    requires multiset(xs) == multiset(ys)
    requires ParseAll(parse, xs).Ok?
    ensures ParseAll(parse, ys).Ok?
    ensures multiset(ParseAll(parse, xs).value) == multiset(ParseAll(parse, ys).value)
  {
    forall y | y in ys ensures parse(y).Ok? {
      assert y in multiset(ys);
      assert y in multiset(xs);
    }
    ImagesPermuted(xs, ys, ParseAll(parse, xs).value, ParseAll(parse, ys).value, parse);
  }

  lemma {:induction false} ImagesPermuted<A, B>(xs: seq<A>, ys: seq<A>, us: seq<B>, vs: seq<B>, parse: A -> Result<B>)
    requires multiset(xs) == multiset(ys) && |us| == |xs| && |vs| == |ys|
    requires forall i :: 0 <= i < |xs| ==> parse(xs[i]) == Ok(us[i])
    requires forall i :: 0 <= i < |ys| ==> parse(ys[i]) == Ok(vs[i])
    ensures multiset(us) == multiset(vs)
    decreases |xs|
  {
    if xs == [] {
      assert |multiset(ys)| == 0;
    } else {
      assert xs[0] in multiset(ys);
      var before, after := TakeOut(ys, xs[0]);
      var k := |before|;
      PermutedRest(xs, before, after);
      var vs' := vs[..k] + vs[k + 1..];
      var ys' := before + after;
      forall i | 0 <= i < |ys'| ensures parse(ys'[i]) == Ok(vs'[i]) {
        if i < k { assert ys'[i] == ys[i]; } else { assert ys'[i] == ys[i + 1]; }
      }
      ImagesPermuted(xs[1..], ys', us[1..], vs', parse);
      assert vs[k] == us[0] by {
        assert parse(ys[k]) == parse(xs[0]);
      }
      PermutedWithout(us, vs, k);
    }
  }

  lemma {:induction false} PermutedWithout<B>(us: seq<B>, vs: seq<B>, k: nat)
    requires us != [] && k < |vs| && vs[k] == us[0]
    requires multiset(us[1..]) == multiset(vs[..k] + vs[k + 1..])
    ensures multiset(us) == multiset(vs)
  {
    assert us == [us[0]] + us[1..] && vs == vs[..k] + [us[0]] + vs[k + 1..];
  }

  function Fold<S, A>(apply: (S, A) -> S, start: S, items: seq<A>): (r: S)
    decreases |items|
  {
    if items == [] then start else Fold(apply, apply(start, items[0]), items[1..])
  }

  lemma {:induction false} FoldConcat<S, A>(apply: (S, A) -> S, start: S, a: seq<A>, b: seq<A>)
    ensures Fold(apply, start, a + b) == Fold(apply, Fold(apply, start, a), b)
    decreases |a|
  {
    if a == [] {
      assert a + b == b;
    } else {
      assert (a + b)[1..] == a[1..] + b;
      FoldConcat(apply, apply(start, a[0]), a[1..], b);
    }
  }

  lemma {:induction false} FoldAppend<S, A>(apply: (S, A) -> S, start: S, items: seq<A>, last: A)
    ensures Fold(apply, start, items + [last]) == apply(Fold(apply, start, items), last)
  {
    FoldConcat(apply, start, items, [last]);
  }

  ghost predicate Commute<S(!new), A>(apply: (S, A) -> S, a: A, b: A) {
    forall s :: apply(apply(s, a), b) == apply(apply(s, b), a)
  }

  ghost predicate AllCommute<S(!new), A(!new)>(apply: (S, A) -> S, items: seq<A>) {
    forall a, b :: a in items && b in items ==> Commute(apply, a, b)
  }

  /** An item that commutes with everything before it can be moved to the front. */
  lemma {:induction false} MoveToFront<S(!new), A>(apply: (S, A) -> S, start: S, before: seq<A>, x: A)
    requires forall a :: a in before ==> Commute(apply, a, x)
    ensures Fold(apply, start, before + [x]) == Fold(apply, apply(start, x), before)
    decreases |before|
  {
    if before == [] {
      assert before + [x] == [x];
    } else {
      var a := before[0];
      assert (before + [x])[1..] == before[1..] + [x];
      MoveToFront(apply, apply(start, a), before[1..], x);
      assert Commute(apply, a, x);
      assert apply(apply(start, a), x) == apply(apply(start, x), a);
    }
  }

  lemma {:induction false} TakeOut<A>(s: seq<A>, x: A) returns (before: seq<A>, after: seq<A>)
    requires x in s
    ensures s == before + [x] + after
    ensures multiset(before + after) == multiset(s) - multiset{x}
  {
    var k :| 0 <= k < |s| && s[k] == x;
    before, after := s[..k], s[k + 1..];
    assert s == before + [x] + after;
  }

  /** Two positions of a list are two positions of every reordering of it. */
  lemma {:induction false} PairIn<A>(xs: seq<A>, ys: seq<A>, i: nat, j: nat) returns (p: nat, q: nat)
    requires multiset(xs) == multiset(ys) && i < |ys| && j < |ys| && i != j
    ensures p < |xs| && q < |xs| && p != q && xs[p] == ys[i] && xs[q] == ys[j]
  {
    var x, y := ys[i], ys[j];
    assert x in multiset(ys) && y in multiset(ys);
    if x != y {
      assert x in multiset(xs) && y in multiset(xs);
      p :| 0 <= p < |xs| && xs[p] == x;
      q :| 0 <= q < |xs| && xs[q] == y;
    } else {
      p, q := RepeatedTwice(xs, ys, i, j);
    }
  }

  lemma {:induction false} RepeatedTwice<A>(xs: seq<A>, ys: seq<A>, i: nat, j: nat) returns (p: nat, q: nat)
    requires multiset(xs) == multiset(ys) && i < |ys| && j < |ys| && i != j && ys[i] == ys[j]
    ensures p < |xs| && q < |xs| && p != q && xs[p] == xs[q] == ys[i]
  {
    var x := ys[i];
    CountsTwice(ys, i, j);
    assert x in multiset(xs);
    var before, after := TakeOut(xs, x);
    assert x in multiset(before + after);
    p := |before|;
    var k :| 0 <= k < |before + after| && (before + after)[k] == x;
    q := if k < |before| then k else k + 1;
    assert xs[p] == x && xs[q] == x;
  }

  lemma {:induction false} CountsTwice<A>(s: seq<A>, i: nat, j: nat)
    requires i < |s| && j < |s| && i != j && s[i] == s[j]
    ensures multiset(s)[s[i]] >= 2
  {
    var lo, hi := if i < j then i else j, if i < j then j else i;
    assert s == s[..lo] + [s[lo]] + s[lo + 1..hi] + [s[hi]] + s[hi + 1..];
  }

  lemma {:induction false} LeaveTwoOut<A>(s: seq<A>, a: A, b: A) returns (rest: seq<A>)
    requires a in s && b in s && a != b
    ensures multiset(rest + [a] + [b]) == multiset(s) == multiset(rest + [b] + [a])
  {
    var p, q := TakeOut(s, a);
    StillThere(s, a, b, p + q);
    var p', q' := TakeOut(p + q, b);
    rest := p' + q';
    PutBack(multiset(s), multiset(p + q), multiset(rest), a, b);
    AppendTwo(rest, a, b, multiset(s));
    AppendTwo(rest, b, a, multiset(s));
  }

  lemma {:induction false} StillThere<A>(s: seq<A>, a: A, b: A, others: seq<A>)
    requires b in s && a != b && multiset(others) == multiset(s) - multiset{a}
    ensures b in others
  {
    assert b in multiset(s);
    assert b in multiset(others);
  }

  lemma {:induction false} PutBack<A>(whole: multiset<A>, part: multiset<A>, rest: multiset<A>, a: A, b: A)
    requires a in whole && part == whole - multiset{a} && b in part && rest == part - multiset{b}
    ensures whole == rest + multiset{a} + multiset{b}
  {
  }

  lemma {:induction false} AppendTwo<A>(rest: seq<A>, a: A, b: A, whole: multiset<A>)
    requires whole == multiset(rest) + multiset{a} + multiset{b}
    ensures multiset(rest + [a] + [b]) == whole
  {
  }

  lemma {:induction false} PermutedRest<A>(xs: seq<A>, before: seq<A>, after: seq<A>)
    requires xs != [] && multiset(xs) == multiset(before + [xs[0]] + after)
    ensures multiset(xs[1..]) == multiset(before + after)
  {
    assert xs == [xs[0]] + xs[1..];
    assert multiset(xs[1..]) == multiset(xs) - multiset{xs[0]};
  }

  /** Pairwise commuting items give the same fold in every order. */
  lemma {:induction false} FoldIsOrderIndependent<S(!new), A(!new)>(apply: (S, A) -> S, start: S, xs: seq<A>, ys: seq<A>)
    requires multiset(xs) == multiset(ys)
    requires AllCommute(apply, xs)
    ensures Fold(apply, start, xs) == Fold(apply, start, ys)
    decreases |xs|
  {
    if xs == [] {
      assert |multiset(ys)| == 0;
    } else {
      var x, rest := xs[0], xs[1..];
      assert x in multiset(ys);
      var before, after := TakeOut(ys, x);
      PermutedRest(xs, before, after);
      forall a | a in before ensures Commute(apply, a, x) {
        assert a in multiset(ys);
        assert a in multiset(xs);
      }
      MoveToFront(apply, start, before, x);
      FoldConcat(apply, start, before + [x], after);
      FoldConcat(apply, apply(start, x), before, after);
      FoldIsOrderIndependent(apply, apply(start, x), rest, before + after);
    }
  }
}
