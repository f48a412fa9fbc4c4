/** Sequences without repetition. */
module Sequences {

  predicate Distinct<T(==)>(s: seq<T>) {
    forall i, j | 0 <= i < j < |s| :: s[i] != s[j]
  }

  lemma NoneIsDistinct<T>()
    ensures Distinct<T>([])
  {
  }

  lemma OneIsDistinct<T>(x: T)
    ensures Distinct([x])
  {
  }

  lemma PrefixDistinct<T>(a: seq<T>, b: seq<T>)
    ensures Distinct(a + b) ==> Distinct(a)
  {
    if Distinct(a + b) {
      forall i, j | 0 <= i < j < |a| ensures a[i] != a[j] {
        assert (a + b)[i] == a[i] && (a + b)[j] == a[j];
      }
    }
  }

  lemma DistinctConcat<T>(a: seq<T>, b: seq<T>)
    requires Distinct(a) && Distinct(b) && forall x | x in a :: x !in b
    ensures Distinct(a + b)
  {
    forall i, j | 0 <= i < j < |a + b| ensures (a + b)[i] != (a + b)[j] {
      assert i < |a| ==> (a + b)[i] in a;
      assert j >= |a| ==> (a + b)[j] in b;
    }
  }

  lemma DistinctSnoc<T>(a: seq<T>, x: T)
    ensures Distinct(a + [x]) <==> Distinct(a) && x !in a
  {
    PrefixDistinct(a, [x]);
    if x in a {
      var i :| 0 <= i < |a| && a[i] == x;
      assert (a + [x])[i] == (a + [x])[|a|];
    }
  }

  lemma {:induction false} DistinctCount<T>(s: seq<T>, x: T)
    requires Distinct(s)
    ensures multiset(s)[x] == if x in s then 1 else 0
  {
    if s != [] {
      var front, last := s[..|s| - 1], s[|s| - 1];
      assert forall i | 0 <= i < |front| :: front[i] == s[i] && s[i] != last;
      DistinctCount(front, x);
      assert s == front + [last];
    }
  }

  lemma SameElementsPermuted<T>(a: seq<T>, b: seq<T>)
    requires Distinct(a) && Distinct(b) && forall x :: x in a <==> x in b
    ensures multiset(a) == multiset(b)
  {
    hide Distinct;
    forall x ensures multiset(a)[x] == multiset(b)[x] {
      DistinctCount(a, x);
      DistinctCount(b, x);
    }
  }

  lemma TakenOut<T>(s: seq<T>, i: nat)
    requires i < |s|
    ensures multiset(s) == multiset(s[..i] + s[i + 1..]) + multiset{s[i]}
  {
    assert s == s[..i] + [s[i]] + s[i + 1..];
  }

  lemma SameSize<T>(a: seq<T>, b: seq<T>)
    requires multiset(a) == multiset(b)
    ensures |a| == |b| && forall x :: x in a <==> x in b
  {
    assert |a| == |multiset(a)| == |multiset(b)| == |b|;
    assert forall x :: x in a <==> x in multiset(a);
  }

  /** A permutation of a sequence without repetition has none either. */
  lemma PermutedIsDistinct<T>(a: seq<T>, b: seq<T>)
    requires Distinct(a) && multiset(a) == multiset(b)
    ensures Distinct(b)
  {
    forall i, j | 0 <= i < j < |b| ensures b[i] != b[j] {
      DistinctCount(a, b[i]);
      assert b == b[..i] + [b[i]] + b[i + 1..j] + [b[j]] + b[j + 1..];
      assert multiset(b)[b[i]] <= 1;
    }
  }

  /** The first occurrence of each element, in order. */
  function Dedupe<T(==, !new)>(s: seq<T>): (r: seq<T>)
    ensures forall x :: x in r <==> x in s
    ensures Distinct(r)
  {
    if s == [] then []
    else
      var front := Dedupe(s[..|s| - 1]);
      assert s == s[..|s| - 1] + [s[|s| - 1]];
      if s[|s| - 1] in front then front else front + [s[|s| - 1]]
  }

  lemma DedupeSnoc<T(!new)>(s: seq<T>, x: T)
    ensures Dedupe(s + [x]) == if x in s then Dedupe(s) else Dedupe(s) + [x]
  {
    assert (s + [x])[..|s|] == s;
  }

  /** Somewhere in s stands x, and no y before it. */
  predicate OccursFirst<T(==)>(s: seq<T>, x: T, y: T) {
    exists k :: 0 <= k < |s| && s[k] == x && y !in s[..k]
  }

  lemma OccursFirstSnoc<T>(s: seq<T>, last: T, x: T, y: T)
    requires OccursFirst(s, x, y)
    ensures OccursFirst(s + [last], x, y)
  {
    var k :| 0 <= k < |s| && s[k] == x && y !in s[..k];
    assert (s + [last])[k] == x && (s + [last])[..k] == s[..k];
  }

  /** What is left is distinct, has the same elements, and stands in the order of first occurrence. */
  lemma {:induction false} DedupeKeepsFirsts<T(!new)>(s: seq<T>)
    ensures Distinct(Dedupe(s)) && forall x :: x in Dedupe(s) <==> x in s
    ensures forall i, j | 0 <= i < j < |Dedupe(s)| :: OccursFirst(s, Dedupe(s)[i], Dedupe(s)[j])
  {
    if s != [] {
      var front, last := s[..|s| - 1], s[|s| - 1];
      assert s == front + [last];
      DedupeKeepsFirsts(front);
      DedupeSnoc(front, last);
      forall i, j | 0 <= i < j < |Dedupe(s)| ensures OccursFirst(s, Dedupe(s)[i], Dedupe(s)[j]) {
        var x, y := Dedupe(s)[i], Dedupe(s)[j];
        if j < |Dedupe(front)| {
          OccursFirstSnoc(front, last, x, y);
        } else {
          assert x == Dedupe(front)[i] && x in Dedupe(front) && x in front;
          var k :| 0 <= k < |front| && front[k] == x;
          assert s[k] == x && s[..k] == front[..k] && last !in front[..k];
        }
      }
    }
  }
}
