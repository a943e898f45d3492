/** Order-preserving removal of duplicates (config.rs). */
module Dedup {

  function Deduped<T(==)>(s: seq<T>): (r: seq<T>) {
    if s == [] then []
    else
      var init := Deduped(s[..|s| - 1]);
      if s[|s| - 1] in init then init else init + [s[|s| - 1]]
  }

  function FirstIndex<T(==)>(s: seq<T>, x: T): (k: nat)
    requires x in s
    ensures k < |s| && s[k] == x && x !in s[..k]
  {
    if s[0] == x then 0 else 1 + FirstIndex(s[1..], x)
  }

  ghost predicate Distinct<T(!new)>(s: seq<T>) {
    forall i, j :: 0 <= i < j < |s| ==> s[i] != s[j]
  }

  function Elements<T(==)>(s: seq<T>): (r: set<T>) {
    set x | x in s
  }

  lemma {:induction false} DistinctIffAsManyElements<T(!new)>(s: seq<T>)
    ensures |Elements(s)| <= |s|
    ensures |Elements(s)| == |s| <==> Distinct(s)
  {
    if s != [] {
      var n := |s| - 1;
      var init, last := s[..n], s[n];
      DistinctIffAsManyElements(init);
      assert s == init + [last];
      assert Elements(s) == Elements(init) + {last};
      if Distinct(s) {
        assert forall k :: 0 <= k < n ==> s[k] != last;
        assert last !in init;
      } else if Distinct(init) {
        assert last in init;
      }
    }
  }

  lemma {:induction false} DistinctTail<T(!new)>(s: seq<T>)
    requires s != [] && Distinct(s)
    ensures Distinct(s[1..]) && Elements(s[1..]) == Elements(s) - {s[0]}
  {
    assert s == [s[0]] + s[1..];
    assert forall k :: 0 <= k < |s| - 1 ==> s[1..][k] == s[k + 1];
    assert Elements(s) == {s[0]} + Elements(s[1..]);
    assert s[0] !in s[1..];
  }

  lemma {:induction false} DistinctAppend<T(!new)>(s: seq<T>, x: T)
    requires Distinct(s) && x !in s
    ensures Distinct(s + [x]) && Elements(s + [x]) == Elements(s) + {x}
  {
  }

  /** `r` lists the elements of `s`, each once, by first occurrence. */
  ghost predicate InFirstOccurrenceOrder<T(!new)>(s: seq<T>, r: seq<T>) {
    && (forall x :: x in r <==> x in s)
    && Distinct(r)
    && forall i, j :: 0 <= i < j < |r| && r[i] in s && r[j] in s ==> FirstIndex(s, r[i]) < FirstIndex(s, r[j])
  }

  /** At most one list is in first occurrence order. */
  lemma {:induction false} FirstOccurrenceOrderIsUnique<T(!new)>(s: seq<T>, r: seq<T>, q: seq<T>)
    requires InFirstOccurrenceOrder(s, r) && InFirstOccurrenceOrder(s, q)
    ensures r == q
  {
    SameOrder(s, r, q);
  }

  ghost predicate Follows<T(!new)>(s: seq<T>, r: seq<T>) {
    && (forall x :: x in r ==> x in s)
    && forall i, j :: 0 <= i < j < |r| ==> r[i] in s && r[j] in s && FirstIndex(s, r[i]) < FirstIndex(s, r[j])
  }

  lemma {:induction false} SameOrder<T(!new)>(s: seq<T>, r: seq<T>, q: seq<T>)
    requires Follows(s, r) && Follows(s, q) && forall x :: x in r <==> x in q
    ensures r == q
  {
    if r == [] {
      HasMember(q);
    } else if q == [] {
      HasMember(r);
    } else {
      SameFirst(s, r, q);
      TailOf(s, r);
      TailOf(s, q);
      SameOrder(s, r[1..], q[1..]);
      assert r == [r[0]] + r[1..] && q == [q[0]] + q[1..];
    }
  }

  lemma {:induction false} HasMember<T(!new)>(q: seq<T>)
    ensures q != [] ==> exists x :: x in q
  {
    if q != [] {
      assert q[0] in q;
    }
  }

  lemma {:induction false} FirstIsLeast<T(!new)>(s: seq<T>, r: seq<T>, x: T)
    requires Follows(s, r) && x in r
    ensures r[0] in s && x in s && FirstIndex(s, r[0]) <= FirstIndex(s, x)
  {
    var k :| 0 <= k < |r| && r[k] == x;
    if k > 0 {
      assert FirstIndex(s, r[0]) < FirstIndex(s, r[k]);
    }
  }

  lemma {:induction false} SameFirst<T(!new)>(s: seq<T>, r: seq<T>, q: seq<T>)
    requires Follows(s, r) && Follows(s, q) && r != [] && q != [] && forall x :: x in r <==> x in q
    ensures r[0] == q[0]
  {
    assert r[0] in q && q[0] in r;
    FirstIsLeast(s, q, r[0]);
    FirstIsLeast(s, r, q[0]);
    assert s[FirstIndex(s, r[0])] == r[0] && s[FirstIndex(s, q[0])] == q[0];
  }

  lemma {:induction false} TailOf<T(!new)>(s: seq<T>, r: seq<T>)
    requires Follows(s, r) && r != []
    ensures Follows(s, r[1..]) && forall x :: x in r[1..] <==> x in r && x != r[0]
  {
    assert r == [r[0]] + r[1..];
    assert forall i :: 0 <= i < |r| - 1 ==> r[1..][i] == r[i + 1];
    forall x | x in r[1..] ensures x != r[0] {
      var k :| 0 <= k < |r| - 1 && r[1..][k] == x;
      assert FirstIndex(s, r[0]) < FirstIndex(s, r[k + 1]);
    }
  }

  lemma {:induction false} FirstIndexOfPrefix<T>(s: seq<T>, n: nat, x: T)
    requires n <= |s| && x in s[..n]
    ensures x in s && FirstIndex(s, x) == FirstIndex(s[..n], x)
  {
    if s[0] != x {
      assert s[..n][1..] == s[1..][..n - 1];
      FirstIndexOfPrefix(s[1..], n - 1, x);
    }
  }

  lemma {:induction false} DedupedKeepsFirstOccurrences<T(!new)>(s: seq<T>)
    ensures InFirstOccurrenceOrder(s, Deduped(s))
  {
    if s != [] {
      var n, x := |s| - 1, s[|s| - 1];
      var init := Deduped(s[..n]);
      DedupedKeepsFirstOccurrences(s[..n]);
      assert s == s[..n] + [x];
      var r := Deduped(s);
      forall i, j | 0 <= i < j < |r| ensures r[i] in s && r[j] in s && FirstIndex(s, r[i]) < FirstIndex(s, r[j]) {
        assert r[i] in init && r[i] in s[..n];
        FirstIndexOfPrefix(s, n, r[i]);
        if j < |init| {
          assert r[j] in init && r[j] in s[..n];
          FirstIndexOfPrefix(s, n, r[j]);
        } else {
          assert r[j] == x && x !in s[..n];
        }
      }
    }
  }

  lemma {:induction false} DedupedOfDistinct<T(!new)>(s: seq<T>)
    requires Distinct(s)
    ensures Deduped(s) == s
  {
    if s != [] {
      var n := |s| - 1;
      DedupedOfDistinct(s[..n]);
      assert s == s[..n] + [s[n]];
    }
  }

  lemma {:induction false} DedupedIsIdempotent<T(!new)>(s: seq<T>)
    ensures Deduped(Deduped(s)) == Deduped(s)
  {
    DedupedKeepsFirstOccurrences(s);
    DedupedOfDistinct(Deduped(s));
  }

  method DedupPreserveOrder<T(==)>(fields: seq<T>) returns (deduped: seq<T>)
    ensures deduped == Deduped(fields)
  {
    deduped := [];
    for i := 0 to |fields|
      invariant deduped == Deduped(fields[..i])
    {
      assert fields[..i + 1][..i] == fields[..i];
      if fields[i] !in deduped {
        deduped := deduped + [fields[i]];
      }
    }
    assert fields[..|fields|] == fields;
  }
}
