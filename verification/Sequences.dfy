/** First occurrences of a sequence, as a JavaScript `Set` or SQL's DISTINCT keeps them. */
module Sequences {

  function Distinct<T(==)>(s: seq<T>): seq<T> {
    if |s| == 0 then []
    else
      var before := Distinct(s[..|s| - 1]);
      if s[|s| - 1] in before then before else before + [s[|s| - 1]]
  }

  ghost predicate NoRepeats<T>(s: seq<T>) {
    forall i, j :: 0 <= i < j < |s| ==> s[i] != s[j]
  }

  lemma {:induction false} DistinctHasEachOnce<T>(s: seq<T>)
    ensures NoRepeats(Distinct(s))
    ensures forall x :: x in Distinct(s) <==> x in s
  {
    if |s| > 0 {
      var n := |s| - 1;
      DistinctHasEachOnce(s[..n]);
      assert s == s[..n] + [s[n]];
    }
  }

  /** Elements seen before add nothing. */
  lemma {:induction false} DistinctAbsorbs<T>(a: seq<T>, b: seq<T>)
    requires forall x :: x in b ==> x in a
    ensures Distinct(a + b) == Distinct(a)
  {
    if |b| == 0 {
      assert a + b == a;
    } else {
      var n := |b| - 1;
      assert (a + b)[..|a + b| - 1] == a + b[..n];
      assert b[n] in b && b[n] in a;
      DistinctAbsorbs(a, b[..n]);
      DistinctHasEachOnce(a);
    }
  }

  lemma {:induction false} CountOfNoRepeats<T>(s: seq<T>)
    requires NoRepeats(s)
    ensures |(set x | x in s)| == |s|
  {
    if |s| > 0 {
      var n := |s| - 1;
      CountOfNoRepeats(s[..n]);
      assert (set x | x in s) == (set x | x in s[..n]) + {s[n]};
    }
  }

  function Filter<T>(s: seq<T>, p: T -> bool): seq<T> {
    if |s| == 0 then [] else Filter(s[..|s| - 1], p) + (if p(s[|s| - 1]) then [s[|s| - 1]] else [])
  }

  /** Filtering keeps each element that satisfies the predicate as often as it was there, and no other. */
  lemma {:induction false} FilterCounts<T>(s: seq<T>, p: T -> bool, x: T)
    ensures multiset(Filter(s, p))[x] == if p(x) then multiset(s)[x] else 0
  {
    if |s| > 0 {
      var n := |s| - 1;
      assert s == s[..n] + [s[n]];
      FilterCounts(s[..n], p, x);
    }
  }

  function Map<T, U>(s: seq<T>, f: T -> U): (r: seq<U>)
    ensures |r| == |s|
    ensures forall i :: 0 <= i < |s| ==> r[i] == f(s[i])
  {
    seq(|s|, i requires 0 <= i < |s| => f(s[i]))
  }

  lemma FilterSnoc<T>(s: seq<T>, p: T -> bool, i: nat)
    requires i < |s|
    ensures Filter(s[..i + 1], p) == Filter(s[..i], p) + (if p(s[i]) then [s[i]] else [])
  {
    assert s[..i + 1][..i] == s[..i];
  }

  lemma {:induction false} FilterSame<T>(s: seq<T>, p: T -> bool, q: T -> bool)
    requires forall x :: x in s ==> p(x) == q(x)
    ensures Filter(s, p) == Filter(s, q)
  {
    if |s| > 0 {
      FilterSame(s[..|s| - 1], p, q);
      assert s[|s| - 1] in s;
    }
  }

  lemma {:induction false} FilterNone<T>(s: seq<T>, p: T -> bool)
    requires forall x :: x in s ==> !p(x)
    ensures Filter(s, p) == []
  {
    if |s| > 0 {
      FilterNone(s[..|s| - 1], p);
      assert s[|s| - 1] in s;
    }
  }

  lemma {:induction false} FilterHas<T>(s: seq<T>, p: T -> bool)
    ensures forall x :: x in Filter(s, p) <==> x in s && p(x)
  {
    if |s| > 0 {
      FilterHas(s[..|s| - 1], p);
      assert s == s[..|s| - 1] + [s[|s| - 1]];
    }
  }

  lemma {:induction false} FilterKeepsNoRepeats<T>(s: seq<T>, p: T -> bool)
    requires NoRepeats(s)
    ensures NoRepeats(Filter(s, p))
  {
    if |s| > 0 {
      var n := |s| - 1;
      FilterKeepsNoRepeats(s[..n], p);
      FilterHas(s[..n], p);
    }
  }

  lemma {:induction false} MoreThanOnce<T>(s: seq<T>, x: T)
    ensures multiset(s)[x] > 1 <==> exists i, j :: 0 <= i < j < |s| && s[i] == x && s[j] == x
  {
    if |s| > 0 {
      var n := |s| - 1;
      assert s == s[..n] + [s[n]];
      MoreThanOnce(s[..n], x);
      if i, j :| 0 <= i < j < n && s[..n][i] == x && s[..n][j] == x {
        assert s[i] == x && s[j] == x;
      }
      if s[n] == x && x in s[..n] {
        var i :| 0 <= i < n && s[..n][i] == x;
        assert s[i] == x && s[n] == x;
      }
      if i, j :| 0 <= i < j < |s| && s[i] == x && s[j] == x {
        assert s[..n][i] == x;
        if j < n { assert s[..n][j] == x; }
      }
    }
  }

  lemma MapAppends<T, U>(a: seq<T>, b: seq<T>, f: T -> U)
    ensures Map(a + b, f) == Map(a, f) + Map(b, f)
  {}

  /** What a filter keeps and what it drops are together everything. */
  lemma {:induction false} FilterSplits<T, U>(s: seq<T>, p: T -> bool, q: T -> bool, f: T -> U)
    requires forall x :: x in s ==> q(x) == !p(x)
    ensures multiset(Map(Filter(s, p), f)) + multiset(Map(Filter(s, q), f)) == multiset(Map(s, f))
  {
    if |s| > 0 {
      var n := |s| - 1;
      assert s[n] in s;
      FilterSplits(s[..n], p, q, f);
      assert s == s[..n] + [s[n]];
      MapAppends(s[..n], [s[n]], f);
      MapAppends(Filter(s[..n], p), [s[n]], f);
      MapAppends(Filter(s[..n], q), [s[n]], f);
      assert Filter(s[..n], p) + [] == Filter(s[..n], p) && Filter(s[..n], q) + [] == Filter(s[..n], q);
    }
  }

  lemma {:induction false} FilterAppends<T>(a: seq<T>, b: seq<T>, p: T -> bool)
    ensures Filter(a + b, p) == Filter(a, p) + Filter(b, p)
  {
    if |b| == 0 {
      assert a + b == a;
    } else {
      var n := |b| - 1;
      assert (a + b)[..|a + b| - 1] == a + b[..n];
      FilterAppends(a, b[..n], p);
    }
  }

  lemma FilterDropsMiddle<T>(a: seq<T>, m: seq<T>, b: seq<T>, p: T -> bool)
    requires forall x :: x in m ==> !p(x)
    ensures Filter(a + m + b, p) == Filter(a, p) + Filter(b, p)
  {
    FilterAppends(a + m, b, p);
    FilterAppends(a, m, p);
    FilterNone(m, p);
  }

  function Both<T>(p: T -> bool, q: T -> bool): T -> bool {
    x => p(x) && q(x)
  }

  lemma {:induction false} FilterTwice<T>(s: seq<T>, p: T -> bool, q: T -> bool)
    ensures Filter(Filter(s, p), q) == Filter(s, Both(p, q))
  {
    if |s| > 0 {
      var n := |s| - 1;
      FilterTwice(s[..n], p, q);
      FilterAppends(Filter(s[..n], p), if p(s[n]) then [s[n]] else [], q);
    }
  }
}
