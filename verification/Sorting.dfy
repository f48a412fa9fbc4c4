/** Stable sorting by a total preorder, and the byte-wise order of strings. */
module Sorting {

  ghost predicate IsTotalPreorder<T(!new)>(leq: (T, T) -> bool) {
    && (forall a, b :: leq(a, b) || leq(b, a))
    && (forall a, b, c :: leq(a, b) && leq(b, c) ==> leq(a, c))
  }

  ghost predicate IsSorted<T>(s: seq<T>, leq: (T, T) -> bool) {
    forall i, j | 0 <= i < j < |s| :: leq(s[i], s[j])
  }

  /** x put after every element that is not greater, which is what keeps the sort stable. */
  function Insert<T>(s: seq<T>, x: T, leq: (T, T) -> bool): seq<T> {
    if s == [] || leq(s[|s| - 1], x) then s + [x]
    else Insert(s[..|s| - 1], x, leq) + [s[|s| - 1]]
  }

  function Sort<T>(s: seq<T>, leq: (T, T) -> bool): seq<T> {
    if s == [] then [] else Insert(Sort(s[..|s| - 1], leq), s[|s| - 1], leq)
  }

  lemma {:induction false} InsertPermutes<T>(s: seq<T>, x: T, leq: (T, T) -> bool)
    ensures multiset(Insert(s, x, leq)) == multiset(s) + multiset{x}
    ensures |Insert(s, x, leq)| == |s| + 1
  {
    if s != [] && !leq(s[|s| - 1], x) {
      InsertPermutes(s[..|s| - 1], x, leq);
      assert s == s[..|s| - 1] + [s[|s| - 1]];
    }
  }

  lemma {:induction false} SortPermutes<T>(s: seq<T>, leq: (T, T) -> bool)
    ensures multiset(Sort(s, leq)) == multiset(s)
    ensures |Sort(s, leq)| == |s|
  {
    if s != [] {
      SortPermutes(s[..|s| - 1], leq);
      InsertPermutes(Sort(s[..|s| - 1], leq), s[|s| - 1], leq);
      assert s == s[..|s| - 1] + [s[|s| - 1]];
    }
  }

  lemma {:induction false} InsertKeepsSorted<T(!new)>(s: seq<T>, x: T, leq: (T, T) -> bool)
    requires IsTotalPreorder(leq) && IsSorted(s, leq)
    ensures IsSorted(Insert(s, x, leq), leq)
  {
    if s != [] {
      var last := s[|s| - 1];
      if !leq(last, x) {
        var front := s[..|s| - 1];
        InsertKeepsSorted(front, x, leq);
        InsertPermutes(front, x, leq);
        var r := Insert(front, x, leq);
        forall i | 0 <= i < |r| ensures leq(r[i], last) {
          assert r[i] in multiset(r);
          assert r[i] == x || r[i] in front;
        }
      } else {
        forall i | 0 <= i < |s| ensures leq(s[i], x) {
          assert leq(s[i], last) || i == |s| - 1;
        }
      }
    }
  }

  lemma {:induction false} SortSorts<T(!new)>(s: seq<T>, leq: (T, T) -> bool)
    requires IsTotalPreorder(leq)
    ensures IsSorted(Sort(s, leq), leq)
  {
    if s != [] {
      SortSorts(s[..|s| - 1], leq);
      InsertKeepsSorted(Sort(s[..|s| - 1], leq), s[|s| - 1], leq);
    }
  }

  lemma SortHasSameElements<T>(s: seq<T>, leq: (T, T) -> bool)
    ensures forall x :: x in Sort(s, leq) <==> x in s
    ensures Sort(s, leq) == [] <==> s == []
  {
    SortPermutes(s, leq);
    forall x ensures x in Sort(s, leq) <==> x in s {
      assert x in Sort(s, leq) <==> x in multiset(Sort(s, leq));
      assert x in s <==> x in multiset(s);
    }
  }

  /** The order tells the elements of s apart. */
  ghost predicate TellsApart<T>(s: seq<T>, leq: (T, T) -> bool) {
    forall x, y | x in s && y in s && leq(x, y) && leq(y, x) :: x == y
  }

  lemma SameHead<T>(a: seq<T>, b: seq<T>, leq: (T, T) -> bool)
    requires multiset(a) == multiset(b) && IsSorted(a, leq) && IsSorted(b, leq) && TellsApart(a, leq) && a != []
             && b != []
    ensures a[0] == b[0]
  {
    assert a[0] in multiset(b) && b[0] in multiset(a);
    var i :| 0 <= i < |b| && b[i] == a[0];
    var j :| 0 <= j < |a| && a[j] == b[0];
    if i > 0 && j > 0 {
      assert leq(b[0], b[i]) && leq(a[0], a[j]);
    }
  }

  lemma TailOf<T>(a: seq<T>, leq: (T, T) -> bool)
    requires a != [] && IsSorted(a, leq)
    ensures a == [a[0]] + a[1..] && multiset(a) == multiset{a[0]} + multiset(a[1..])
    ensures IsSorted(a[1..], leq)
    ensures TellsApart(a, leq) ==> TellsApart(a[1..], leq)
  {
    assert a == [a[0]] + a[1..];
    forall x | x in a[1..] ensures x in a {
    }
  }

  /** Two sorted arrangements of the same elements, under an order that tells them apart, agree. */
  lemma {:induction false} SortedIsUnique<T>(a: seq<T>, b: seq<T>, leq: (T, T) -> bool)
    requires multiset(a) == multiset(b) && IsSorted(a, leq) && IsSorted(b, leq) && TellsApart(a, leq)
    ensures a == b
  {
    hide IsSorted, TellsApart;
    assert |b| == |multiset(b)| == |multiset(a)| == |a|;
    if a != [] {
      SameHead(a, b, leq);
      TailOf(a, leq);
      TailOf(b, leq);
      assert multiset(a[1..]) == multiset(a) - multiset{a[0]} == multiset(b[1..]);
      SortedIsUnique(a[1..], b[1..], leq);
    }
  }

  // ---------------------------------------------------------------------------------------------
  // Strings
  // ---------------------------------------------------------------------------------------------

  predicate StringLeq(a: string, b: string) {
    a == [] || (b != [] && (a[0] < b[0] || (a[0] == b[0] && StringLeq(a[1..], b[1..]))))
  }

  /** The order is that of the first character in which the two differ; a prefix comes first. */
  lemma {:induction false} StringLeqIsLexicographic(a: string, b: string, k: nat)
    requires k <= |a| && k <= |b| && a[..k] == b[..k]
    ensures k == |a| ==> StringLeq(a, b)
    ensures k == |b| < |a| ==> !StringLeq(a, b)
    ensures k < |a| && k < |b| && a[k] != b[k] ==> (StringLeq(a, b) <==> a[k] < b[k])
  {
    if k > 0 {
      assert a[0] == a[..k][0] == b[..k][0] == b[0];
      assert a[1..][..k - 1] == a[..k][1..] == b[..k][1..] == b[1..][..k - 1];
      StringLeqIsLexicographic(a[1..], b[1..], k - 1);
    }
  }

  lemma {:induction false} StringLeqIsTotal(a: string, b: string)
    ensures StringLeq(a, b) || StringLeq(b, a)
    ensures StringLeq(a, b) && StringLeq(b, a) ==> a == b
  {
    if a != [] && b != [] && a[0] == b[0] {
      StringLeqIsTotal(a[1..], b[1..]);
      assert a == [a[0]] + a[1..] && b == [b[0]] + b[1..];
    }
  }

  lemma {:induction false} StringLeqIsTransitive(a: string, b: string, c: string)
    requires StringLeq(a, b) && StringLeq(b, c)
    ensures StringLeq(a, c)
  {
    if a != [] && b != [] && c != [] && a[0] == b[0] == c[0] {
      StringLeqIsTransitive(a[1..], b[1..], c[1..]);
    }
  }

  lemma StringLeqIsTotalPreorder()
    ensures IsTotalPreorder(StringLeq)
  {
    forall a: string, b: string ensures StringLeq(a, b) || StringLeq(b, a) {
      StringLeqIsTotal(a, b);
    }
    forall a: string, b: string, c: string | StringLeq(a, b) && StringLeq(b, c) ensures StringLeq(a, c) {
      StringLeqIsTransitive(a, b, c);
    }
  }

  /** Pairs of strings, the first one deciding. */
  predicate PairLeq(a: (string, string), b: (string, string)) {
    if a.0 == b.0 then StringLeq(a.1, b.1) else StringLeq(a.0, b.0)
  }

  lemma PairLeqIsTotal(a: (string, string), b: (string, string))
    ensures PairLeq(a, b) || PairLeq(b, a)
    ensures PairLeq(a, b) && PairLeq(b, a) ==> a == b
  {
    StringLeqIsTotal(a.0, b.0);
    StringLeqIsTotal(a.1, b.1);
  }

  lemma PairLeqIsTransitive(a: (string, string), b: (string, string), c: (string, string))
    requires PairLeq(a, b) && PairLeq(b, c)
    ensures PairLeq(a, c)
  {
    StringLeqIsTotal(a.0, b.0);
    StringLeqIsTotal(b.0, c.0);
    if a.0 == b.0 == c.0 {
      StringLeqIsTransitive(a.1, b.1, c.1);
    } else if a.0 != b.0 && b.0 != c.0 {
      StringLeqIsTransitive(a.0, b.0, c.0);
      StringLeqIsTotal(a.0, c.0);
    }
  }
}
