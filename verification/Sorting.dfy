/** Sorting by a total order, and the fact that there is only one sorted arrangement. */
module Sorting {

  /** `leq` orders the given elements totally, with no ties between different ones. */
  ghost predicate TotalOn<T>(leq: (T, T) -> bool, xs: multiset<T>) {
    && (forall x, y :: x in xs && y in xs ==> leq(x, y) || leq(y, x))
    && (forall x, y :: x in xs && y in xs && leq(x, y) && leq(y, x) ==> x == y)
    && (forall x, y, z :: x in xs && y in xs && z in xs && leq(x, y) && leq(y, z) ==> leq(x, z))
  }

  ghost predicate SortedBy<T>(leq: (T, T) -> bool, s: seq<T>) {
    forall i, j :: 0 <= i < j < |s| ==> leq(s[i], s[j])
  }

  function Insert<T>(leq: (T, T) -> bool, x: T, s: seq<T>): seq<T> {
    if |s| == 0 || leq(x, s[0]) then [x] + s else [s[0]] + Insert(leq, x, s[1..])
  }

  function Sort<T>(leq: (T, T) -> bool, s: seq<T>): seq<T> {
    if |s| == 0 then [] else Insert(leq, s[0], Sort(leq, s[1..]))
  }

  lemma {:induction false} InsertIsPermutation<T>(leq: (T, T) -> bool, x: T, s: seq<T>)
    ensures multiset(Insert(leq, x, s)) == multiset{x} + multiset(s)
  {
    if |s| > 0 {
      assert s == [s[0]] + s[1..];
      InsertIsPermutation(leq, x, s[1..]);
    }
  }

  lemma {:induction false} SortIsPermutation<T>(leq: (T, T) -> bool, s: seq<T>)
    ensures multiset(Sort(leq, s)) == multiset(s)
    ensures |Sort(leq, s)| == |s|
  {
    if |s| > 0 {
      assert s == [s[0]] + s[1..];
      SortIsPermutation(leq, s[1..]);
      InsertIsPermutation(leq, s[0], Sort(leq, s[1..]));
    }
    assert |multiset(Sort(leq, s))| == |multiset(s)|;
  }

  lemma {:induction false} InsertHas<T>(leq: (T, T) -> bool, x: T, s: seq<T>, y: T)
    requires y in Insert(leq, x, s)
    ensures y == x || y in s
  {
    if |s| > 0 && !leq(x, s[0]) && y != s[0] {
      assert y in Insert(leq, x, s[1..]);
      InsertHas(leq, x, s[1..], y);
    }
  }

  lemma ConsSorted<T>(leq: (T, T) -> bool, head: T, rest: seq<T>)
    requires SortedBy(leq, rest) && forall y :: y in rest ==> leq(head, y)
    ensures SortedBy(leq, [head] + rest)
  {
    var s := [head] + rest;
    forall i, j | 0 <= i < j < |s| ensures leq(s[i], s[j]) {
      assert s[j] == rest[j - 1];
      if i > 0 { assert s[i] == rest[i - 1]; }
    }
  }

  lemma {:induction false} InsertSorts<T>(leq: (T, T) -> bool, x: T, s: seq<T>, all: multiset<T>)
    requires TotalOn(leq, all) && x in all && (forall y :: y in s ==> y in all) && SortedBy(leq, s)
    ensures SortedBy(leq, Insert(leq, x, s))
  {
    if |s| > 0 {
      assert s[0] in all;
      if leq(x, s[0]) {
        forall y | y in s ensures leq(x, y) {
          var i :| 0 <= i < |s| && s[i] == y;
          assert i == 0 || leq(s[0], s[i]);
        }
        ConsSorted(leq, x, s);
      } else {
        assert leq(s[0], x);
        var rest := Insert(leq, x, s[1..]);
        InsertSorts(leq, x, s[1..], all);
        forall y | y in rest ensures leq(s[0], y) {
          InsertHas(leq, x, s[1..], y);
          if y != x {
            var i :| 0 <= i < |s[1..]| && s[1..][i] == y;
            assert s[i + 1] == y;
          }
        }
        ConsSorted(leq, s[0], rest);
      }
    }
  }

  lemma {:induction false} SortSorts<T>(leq: (T, T) -> bool, s: seq<T>, all: multiset<T>)
    requires TotalOn(leq, all) && forall y :: y in s ==> y in all
    ensures SortedBy(leq, Sort(leq, s))
  {
    if |s| > 0 {
      SortSorts(leq, s[1..], all);
      SortHas(leq, s[1..]);
      InsertSorts(leq, s[0], Sort(leq, s[1..]), all);
    }
  }

  lemma SortHas<T>(leq: (T, T) -> bool, s: seq<T>)
    ensures forall y :: y in Sort(leq, s) ==> y in s
  {
    SortIsPermutation(leq, s);
    forall y | y in Sort(leq, s) ensures y in s {
      assert y in multiset(Sort(leq, s));
      assert y in multiset(s);
    }
  }

  lemma HeadsAgree<T>(leq: (T, T) -> bool, a: seq<T>, b: seq<T>)
    requires TotalOn(leq, multiset(a)) && multiset(a) == multiset(b)
    requires SortedBy(leq, a) && SortedBy(leq, b) && |a| > 0 && |b| > 0
    ensures a[0] == b[0]
  {
    assert a[0] in multiset(b) && b[0] in multiset(a);
    var i :| 0 <= i < |b| && b[i] == a[0];
    var j :| 0 <= j < |a| && a[j] == b[0];
    if i > 0 && j > 0 {
      assert leq(b[0], b[i]) && leq(a[0], a[j]);
    }
  }

  lemma TailsMatch<T>(a: seq<T>, b: seq<T>)
    requires multiset(a) == multiset(b) && |a| > 0 && |b| > 0 && a[0] == b[0]
    ensures multiset(a[1..]) == multiset(b[1..])
  {
    assert a == [a[0]] + a[1..] && b == [b[0]] + b[1..];
    assert multiset(a[1..]) == multiset(a) - multiset{a[0]};
    assert multiset(b[1..]) == multiset(b) - multiset{b[0]};
  }

  lemma TailOrdered<T>(leq: (T, T) -> bool, a: seq<T>)
    requires TotalOn(leq, multiset(a)) && |a| > 0
    ensures TotalOn(leq, multiset(a[1..]))
  {
    assert a == [a[0]] + a[1..];
    assert forall x :: x in multiset(a[1..]) ==> x in multiset(a);
  }

  lemma TailSorted<T>(leq: (T, T) -> bool, a: seq<T>)
    requires SortedBy(leq, a) && |a| > 0
    ensures SortedBy(leq, a[1..])
  {
    forall i, j | 0 <= i < j < |a[1..]| ensures leq(a[1..][i], a[1..][j]) {
      assert leq(a[i + 1], a[j + 1]);
    }
  }

  lemma {:induction false} SameLengthIsUnique<T>(leq: (T, T) -> bool, a: seq<T>, b: seq<T>)
    requires |a| == |b| && TotalOn(leq, multiset(a)) && multiset(a) == multiset(b)
    requires SortedBy(leq, a) && SortedBy(leq, b)
    ensures a == b
    decreases |a|
  {
    if |a| > 0 {
      HeadsAgree(leq, a, b);
      assert a[1..] == b[1..] by {
        TailsMatch(a, b);
        TailOrdered(leq, a);
        TailSorted(leq, a);
        TailSorted(leq, b);
        SameLengthIsUnique(leq, a[1..], b[1..]);
      }
      assert a == [a[0]] + a[1..] && b == [b[0]] + b[1..];
    }
  }

  /** Two sorted arrangements of the same elements are the same sequence. */
  lemma SortedIsUnique<T>(leq: (T, T) -> bool, a: seq<T>, b: seq<T>)
    requires TotalOn(leq, multiset(a)) && multiset(a) == multiset(b)
    requires SortedBy(leq, a) && SortedBy(leq, b)
    ensures a == b
  {
    assert |a| == |multiset(a)| == |multiset(b)| == |b|;
    SameLengthIsUnique(leq, a, b);
  }

  /** Sorting forgets the order of its input. */
  lemma SortForgetsOrder<T>(leq: (T, T) -> bool, a: seq<T>, b: seq<T>)
    requires TotalOn(leq, multiset(a)) && multiset(a) == multiset(b)
    ensures Sort(leq, a) == Sort(leq, b)
  {
    SortIsPermutation(leq, a);
    SortIsPermutation(leq, b);
    SortSorts(leq, a, multiset(a));
    forall y | y in b ensures y in multiset(a) { assert y in multiset(b); }
    SortSorts(leq, b, multiset(a));
    SortedIsUnique(leq, Sort(leq, a), Sort(leq, b));
  }

  /** A sorted sequence is its own sort. */
  lemma SortOfSorted<T>(leq: (T, T) -> bool, a: seq<T>)
    requires TotalOn(leq, multiset(a)) && SortedBy(leq, a)
    ensures Sort(leq, a) == a
  {
    SortIsPermutation(leq, a);
    SortSorts(leq, a, multiset(a));
    SortedIsUnique(leq, Sort(leq, a), a);
  }
}
