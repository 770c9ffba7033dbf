/**
 Cost Explorer paging and accumulation, with amounts as reals.

 Periods and service breakdowns are kept in order of first arrival, as the source's map and object are.
 */
module CostExplorer {
  import opened Prelude

  datatype Group = Group(service: Option<string>, amount: Option<real>, unit: Option<string>)

  datatype TimeResult = TimeResult(start: Option<string>, end: Option<string>, groups: seq<Group>)

  datatype Page = Page(results: seq<TimeResult>, token: Option<string>)

  type Breakdown = seq<(string, real)>

  datatype Period = Period(start: string, end: string, currency: string, total: real, breakdown: Breakdown)

  datatype Keyed = Keyed(key: string, period: Period)

  /** The request's own dates, which stand in for a missing time period. */
  datatype Dates = Dates(start: string, end: string)

  function StartOf(r: TimeResult, d: Dates): string {
    if r.start.Some? then r.start.value else d.start
  }

  function EndOf(r: TimeResult, d: Dates): string {
    if r.end.Some? then r.end.value else d.end
  }

  function KeyOf(r: TimeResult, d: Dates): string {
    StartOf(r, d) + "|" + EndOf(r, d)
  }

  function AmountOf(g: Group): real {
    if g.amount.Some? then g.amount.value else 0.0
  }

  function ServiceOf(g: Group): string {
    if g.service.Some? then g.service.value else "Unknown"
  }

  function AddService(b: Breakdown, service: string, amount: real): Breakdown {
    if |b| == 0 then [(service, 0.0 + amount)]
    else if b[0].0 == service then [(service, b[0].1 + amount)] + b[1..]
    else [b[0]] + AddService(b[1..], service, amount)
  }

  function CostOf(b: Breakdown, service: string): real {
    if |b| == 0 then 0.0 else (if b[0].0 == service then b[0].1 else 0.0) + CostOf(b[1..], service)
  }

  function SumOf(b: Breakdown): real {
    if |b| == 0 then 0.0 else b[0].1 + SumOf(b[1..])
  }

  lemma {:induction false} AddServiceAdds(b: Breakdown, service: string, amount: real, other: string)
    ensures SumOf(AddService(b, service, amount)) == SumOf(b) + amount
    ensures CostOf(AddService(b, service, amount), other)
            == CostOf(b, other) + (if other == service then amount else 0.0)
  {
    if |b| > 0 && b[0].0 != service { AddServiceAdds(b[1..], service, amount, other); }
  }

  function AddGroup(p: Period, g: Group): Period {
    var named := if Truthy(g.unit) then p.(currency := g.unit.value) else p;
    if AmountOf(g) <= 0.0 then named
    else named.(breakdown := AddService(named.breakdown, ServiceOf(g), AmountOf(g)), total := named.total + AmountOf(g))
  }

  function AddGroups(p: Period, groups: seq<Group>): Period
    decreases |groups|
  {
    if |groups| == 0 then p else AddGroups(AddGroup(p, groups[0]), groups[1..])
  }

  function IndexOf(periods: seq<Keyed>, key: string): (i: nat)
    ensures i <= |periods|
    ensures i < |periods| ==> periods[i].key == key
    ensures forall j :: 0 <= j < i ==> periods[j].key != key
  {
    if |periods| == 0 || periods[0].key == key then 0 else 1 + IndexOf(periods[1..], key)
  }

  function Fresh(r: TimeResult, d: Dates): Period {
    Period(StartOf(r, d), EndOf(r, d), "USD", 0.0, [])
  }

  /** `accumulatePeriod`. */
  function Accumulate(periods: seq<Keyed>, r: TimeResult, d: Dates): seq<Keyed> {
    var key := KeyOf(r, d);
    var i := IndexOf(periods, key);
    if i < |periods| then periods[i := Keyed(key, AddGroups(periods[i].period, r.groups))]
    else periods + [Keyed(key, AddGroups(Fresh(r, d), r.groups))]
  }

  function AccumulateAll(results: seq<TimeResult>, d: Dates): seq<Keyed> {
    if |results| == 0 then [] else Accumulate(AccumulateAll(results[..|results| - 1], d), results[|results| - 1], d)
  }

  /* ----- what the accumulated figures are, independently of how they were added up ----- */

  /** All groups that arrived for one period, in order. */
  function GroupsFor(results: seq<TimeResult>, key: string, d: Dates): seq<Group> {
    if |results| == 0 then []
    else GroupsFor(results[..|results| - 1], key, d)
         + (if KeyOf(results[|results| - 1], d) == key then results[|results| - 1].groups else [])
  }

  function PositiveSum(groups: seq<Group>): real {
    if |groups| == 0 then 0.0 else Positive(groups[0]) + PositiveSum(groups[1..])
  }

  /** A group without an amount, or with one that is not positive, costs nothing. */
  function Positive(g: Group): real {
    if g.amount.Some? && g.amount.value > 0.0 then g.amount.value else 0.0
  }

  /** Groups that name no service are charged to "Unknown". */
  predicate ChargedTo(g: Group, service: string) {
    g.service == Some(service) || (g.service.None? && service == "Unknown")
  }

  function ServiceSum(groups: seq<Group>, service: string): real {
    if |groups| == 0 then 0.0
    else (if ChargedTo(groups[0], service) then Positive(groups[0]) else 0.0) + ServiceSum(groups[1..], service)
  }

  /** The empty period that the first arrival of a key opens. */
  function Opened(results: seq<TimeResult>, key: string, d: Dates): Option<Period> {
    if |results| == 0 then None
    else
      var before := Opened(results[..|results| - 1], key, d);
      if before.Some? then before
      else if KeyOf(results[|results| - 1], d) == key then Some(Fresh(results[|results| - 1], d))
      else None
  }

  /** `results[i]` is the first to arrive for the key. */
  predicate FirstAt(results: seq<TimeResult>, key: string, d: Dates, i: nat) {
    i < |results| && KeyOf(results[i], d) == key && forall j :: 0 <= j < i ==> KeyOf(results[j], d) != key
  }

  lemma {:induction false} OpenedByFirstArrival(results: seq<TimeResult>, key: string, d: Dates) returns (i: nat)
    requires Opened(results, key, d).Some?
    ensures FirstAt(results, key, d, i) && Opened(results, key, d).value == Fresh(results[i], d)
  {
    var n := |results| - 1;
    var before := results[..n];
    if Opened(before, key, d).Some? {
      i := OpenedByFirstArrival(before, key, d);
      forall j | 0 <= j <= i ensures KeyOf(results[j], d) == KeyOf(before[j], d) { assert before[j] == results[j]; }
    } else {
      i := n;
      NeverOpened(before, key, d);
      forall j | 0 <= j < n ensures KeyOf(results[j], d) != key { assert before[j] == results[j]; }
    }
  }

  lemma {:induction false} NeverOpened(results: seq<TimeResult>, key: string, d: Dates)
    requires Opened(results, key, d).None?
    ensures forall i :: 0 <= i < |results| ==> KeyOf(results[i], d) != key
  {
    if |results| > 0 {
      var n := |results| - 1;
      NeverOpened(results[..n], key, d);
      forall j | 0 <= j < n ensures KeyOf(results[j], d) != key { assert results[..n][j] == results[j]; }
    }
  }

  lemma {:induction false} AddGroupsSums(p: Period, groups: seq<Group>, service: string)
    ensures var q := AddGroups(p, groups);
            && q.total == p.total + PositiveSum(groups)
            && SumOf(q.breakdown) == SumOf(p.breakdown) + PositiveSum(groups)
            && CostOf(q.breakdown, service) == CostOf(p.breakdown, service) + ServiceSum(groups, service)
            && q.start == p.start && q.end == p.end
    decreases |groups|
  {
    if |groups| > 0 {
      AddServiceAdds(p.breakdown, ServiceOf(groups[0]), AmountOf(groups[0]), service);
      AddGroupsSums(AddGroup(p, groups[0]), groups[1..], service);
    }
  }

  predicate NamesOnce(b: Breakdown) {
    forall i, j :: 0 <= i < j < |b| ==> b[i].0 != b[j].0
  }

  lemma {:induction false} AddServiceKeepsNames(b: Breakdown, service: string, amount: real)
    requires NamesOnce(b)
    ensures NamesOnce(AddService(b, service, amount))
    ensures forall x :: x in AddService(b, service, amount) ==> x.0 == service || exists y :: y in b && y.0 == x.0
  {
    if |b| > 0 && b[0].0 != service {
      var rest := AddService(b[1..], service, amount);
      AddServiceKeepsNames(b[1..], service, amount);
      forall x | x in rest ensures x.0 != b[0].0 {
        if x.0 != service {
          var y :| y in b[1..] && y.0 == x.0;
        }
      }
      forall i, j | 0 <= i < j < |rest| + 1 ensures ([b[0]] + rest)[i].0 != ([b[0]] + rest)[j].0 {
        assert rest[j - 1] in rest;
      }
    }
  }

  /** The last unit named is the currency. */
  ghost predicate NamedLast(groups: seq<Group>, currency: string) {
    || ((forall i :: 0 <= i < |groups| ==> !Truthy(groups[i].unit)) && currency == "USD")
    || exists i :: LastUnit(groups, i, currency)
  }

  predicate LastUnit(groups: seq<Group>, i: nat, currency: string) {
    && i < |groups| && groups[i].unit == Some(currency) && currency != ""
    && forall j :: i < j < |groups| ==> !Truthy(groups[j].unit)
  }

  /** A period lists each service once, and keeps the unit that was named last. */
  lemma {:induction false} AddGroupsNames(p: Period, groups: seq<Group>)
    requires NamesOnce(p.breakdown)
    ensures var q := AddGroups(p, groups);
            && NamesOnce(q.breakdown)
            && ((exists i :: LastUnit(groups, i, q.currency))
                || ((forall i :: 0 <= i < |groups| ==> !Truthy(groups[i].unit)) && q.currency == p.currency))
    decreases |groups|
  {
    if |groups| > 0 {
      var g, rest := groups[0], groups[1..];
      AddServiceKeepsNames(p.breakdown, ServiceOf(g), AmountOf(g));
      AddGroupsNames(AddGroup(p, g), rest);
      var currency := AddGroups(p, groups).currency;
      if i: nat :| LastUnit(rest, i, currency) {
        forall j | i + 1 < j < |groups| ensures !Truthy(groups[j].unit) { assert groups[j] == rest[j - 1]; }
        assert LastUnit(groups, i + 1, currency);
      } else {
        forall j | 0 < j < |groups| ensures !Truthy(groups[j].unit) { assert groups[j] == rest[j - 1]; }
        if Truthy(g.unit) { assert LastUnit(groups, 0, currency); }
      }
    }
  }

  lemma {:induction false} AddGroupsAppends(p: Period, a: seq<Group>, b: seq<Group>)
    ensures AddGroups(p, a + b) == AddGroups(AddGroups(p, a), b)
    decreases |a|
  {
    if |a| == 0 {
      assert a + b == b;
    } else {
      assert (a + b)[1..] == a[1..] + b;
      AddGroupsAppends(AddGroup(p, a[0]), a[1..], b);
    }
  }

  ghost predicate Distinct(periods: seq<Keyed>) {
    forall i, j :: 0 <= i < j < |periods| ==> periods[i].key != periods[j].key
  }

  /** One entry per period that arrived, holding the fold of all its groups in arrival order. */
  lemma {:induction false} OneEntryPerPeriod(results: seq<TimeResult>, d: Dates, key: string)
    ensures var periods := AccumulateAll(results, d);
            && Distinct(periods)
            && (IndexOf(periods, key) < |periods| <==> Opened(results, key, d).Some?)
            && (Opened(results, key, d).Some? ==>
                  periods[IndexOf(periods, key)].period
                      == AddGroups(Opened(results, key, d).value, GroupsFor(results, key, d)))
            && (Opened(results, key, d).None? ==> GroupsFor(results, key, d) == [])
  {
    if |results| > 0 {
      var n := |results| - 1;
      var before := results[..n];
      var r := results[n];
      OneEntryPerPeriod(before, d, key);
      IndexAfter(AccumulateAll(before, d), r, d, key);
      var groups := GroupsFor(before, key, d);
      if KeyOf(r, d) == key {
        if Opened(before, key, d).Some? {
          AddGroupsAppends(Opened(before, key, d).value, groups, r.groups);
        } else {
          assert groups + r.groups == r.groups;
        }
      } else {
        assert groups + [] == groups;
      }
    }
  }

  lemma IndexAfter(periods: seq<Keyed>, r: TimeResult, d: Dates, key: string)
    requires Distinct(periods)
    ensures var after := Accumulate(periods, r, d);
            && Distinct(after)
            && (IndexOf(after, key) < |after| <==> IndexOf(periods, key) < |periods| || key == KeyOf(r, d))
            && (key != KeyOf(r, d) && IndexOf(periods, key) < |periods| ==>
                  after[IndexOf(after, key)].period == periods[IndexOf(periods, key)].period)
            && (key == KeyOf(r, d) ==>
                  after[IndexOf(after, key)].period ==
                  AddGroups(if IndexOf(periods, key) < |periods| then periods[IndexOf(periods, key)].period
                            else Fresh(r, d), r.groups))
  {
    var after := Accumulate(periods, r, d);
    var i := IndexOf(periods, KeyOf(r, d));
    assert after[i].key == KeyOf(r, d);
    IndexIs(after, KeyOf(r, d), i);
    if key != KeyOf(r, d) && IndexOf(periods, key) < |periods| {
      IndexIs(after, key, IndexOf(periods, key));
    }
  }

  lemma IndexIs(periods: seq<Keyed>, key: string, i: nat)
    requires Distinct(periods) && i < |periods| && periods[i].key == key
    ensures IndexOf(periods, key) == i
  {}

  /** The figures of a period: its total is the sum of its positive amounts and of its breakdown, and each
      service's cost is the sum of that service's positive amounts. */
  lemma PeriodFigures(results: seq<TimeResult>, d: Dates, key: string, service: string)
    requires Opened(results, key, d).Some?
    ensures var periods := AccumulateAll(results, d);
            && IndexOf(periods, key) < |periods|
            && var p := periods[IndexOf(periods, key)].period;
               && p.total == PositiveSum(GroupsFor(results, key, d)) == SumOf(p.breakdown)
               && CostOf(p.breakdown, service) == ServiceSum(GroupsFor(results, key, d), service)
               && p.start + "|" + p.end == key
  {
    OneEntryPerPeriod(results, d, key);
    var first := OpenedByFirstArrival(results, key, d);
    AddGroupsSums(Opened(results, key, d).value, GroupsFor(results, key, d), service);
  }

  /** Its dates are those of the result that arrived first for it, and the request's where that names none; its
      currency is the unit named last; and it lists each service once. */
  lemma PeriodLabels(results: seq<TimeResult>, d: Dates, key: string) returns (first: nat)
    requires Opened(results, key, d).Some?
    ensures FirstAt(results, key, d, first)
    ensures var periods := AccumulateAll(results, d);
            && IndexOf(periods, key) < |periods|
            && var p := periods[IndexOf(periods, key)].period;
               && p.start == (match results[first].start case Some(start) => start case None => d.start)
               && p.end == (match results[first].end case Some(end) => end case None => d.end)
               && NamedLast(GroupsFor(results, key, d), p.currency) && NamesOnce(p.breakdown)
  {
    OneEntryPerPeriod(results, d, key);
    first := OpenedByFirstArrival(results, key, d);
    AddGroupsSums(Opened(results, key, d).value, GroupsFor(results, key, d), "");
    AddGroupsNames(Opened(results, key, d).value, GroupsFor(results, key, d));
  }

  /** Neither the paging nor the splitting of a period over several results matters: if each period gets
      the same groups in the same order, it ends with the same figures, currency and breakdown. */
  lemma SplitDoesNotMatter(a: seq<TimeResult>, b: seq<TimeResult>, d: Dates, key: string)
    requires Opened(a, key, d).Some? && Opened(b, key, d).Some? && GroupsFor(a, key, d) == GroupsFor(b, key, d)
    ensures var pa, pb := AccumulateAll(a, d), AccumulateAll(b, d);
            && IndexOf(pa, key) < |pa| && IndexOf(pb, key) < |pb|
            && var x, y := pa[IndexOf(pa, key)].period, pb[IndexOf(pb, key)].period;
               x.total == y.total && x.currency == y.currency && x.breakdown == y.breakdown
  {
    OneEntryPerPeriod(a, d, key);
    OneEntryPerPeriod(b, d, key);
    var i := OpenedByFirstArrival(a, key, d);
    var j := OpenedByFirstArrival(b, key, d);
    DatesDoNotMatter(Opened(a, key, d).value, Opened(b, key, d).value, GroupsFor(a, key, d));
  }

  lemma {:induction false} SumsWithout(groups: seq<Group>, i: nat, service: string)
    requires i < |groups|
    ensures PositiveSum(groups) == Positive(groups[i]) + PositiveSum(groups[..i] + groups[i + 1..])
    ensures ServiceSum(groups, service)
         == (if ChargedTo(groups[i], service) then Positive(groups[i]) else 0.0)
            + ServiceSum(groups[..i] + groups[i + 1..], service)
  {
    if i == 0 {
      assert groups[..0] + groups[1..] == groups[1..];
    } else {
      var rest := groups[1..];
      SumsWithout(rest, i - 1, service);
      assert (groups[..i] + groups[i + 1..])[1..] == rest[..i - 1] + rest[i..];
    }
  }

  lemma RestsMatch(a: seq<Group>, b: seq<Group>, i: nat)
    requires |a| > 0 && multiset(a) == multiset(b) && i < |b| && b[i] == a[0]
    ensures multiset(a[1..]) == multiset(b[..i] + b[i + 1..])
  {
    var rest := b[..i] + b[i + 1..];
    assert a == [a[0]] + a[1..] && b == b[..i] + [b[i]] + b[i + 1..];
    assert multiset(a) == multiset{a[0]} + multiset(a[1..]);
    assert multiset(b) == multiset{b[i]} + multiset(rest);
    assert multiset(a[1..]) == multiset(a) - multiset{a[0]};
    assert multiset(rest) == multiset(b) - multiset{a[0]};
  }

  lemma {:induction false} SumsIgnoreOrder(a: seq<Group>, b: seq<Group>, service: string)
    requires multiset(a) == multiset(b)
    ensures PositiveSum(a) == PositiveSum(b) && ServiceSum(a, service) == ServiceSum(b, service)
  {
    assert |multiset(a)| == |a| && |multiset(b)| == |b|;
    if |a| > 0 {
      assert a[0] in multiset(b);
      var i :| 0 <= i < |b| && b[i] == a[0];
      RestsMatch(a, b, i);
      SumsWithout(b, i, service);
      SumsIgnoreOrder(a[1..], b[..i] + b[i + 1..], service);
    }
  }

  /** Nor does the order in which a period's groups arrive matter to its total and its costs by service. */
  lemma OrderDoesNotMatter(a: seq<TimeResult>, b: seq<TimeResult>, d: Dates, key: string, service: string)
    requires Opened(a, key, d).Some? && Opened(b, key, d).Some?
    requires multiset(GroupsFor(a, key, d)) == multiset(GroupsFor(b, key, d))
    ensures var pa, pb := AccumulateAll(a, d), AccumulateAll(b, d);
            && IndexOf(pa, key) < |pa| && IndexOf(pb, key) < |pb|
            && var x, y := pa[IndexOf(pa, key)].period, pb[IndexOf(pb, key)].period;
               x.total == y.total && CostOf(x.breakdown, service) == CostOf(y.breakdown, service)
  {
    PeriodFigures(a, d, key, service);
    PeriodFigures(b, d, key, service);
    SumsIgnoreOrder(GroupsFor(a, key, d), GroupsFor(b, key, d), service);
  }

  lemma {:induction false} DatesDoNotMatter(p: Period, q: Period, groups: seq<Group>)
    requires p.currency == q.currency && p.total == q.total && p.breakdown == q.breakdown
    ensures var x, y := AddGroups(p, groups), AddGroups(q, groups);
            x.currency == y.currency && x.total == y.total && x.breakdown == y.breakdown
    decreases |groups|
  {
    if |groups| > 0 { DatesDoNotMatter(AddGroup(p, groups[0]), AddGroup(q, groups[0]), groups[1..]); }
  }

  /* ----- the paging loop ----- */

  type Fetch = Option<string> -> Result<Page, string>

  /** Every continuation token the service can hand out. */
  ghost predicate TokensWithin(fetch: Fetch, tokens: set<string>) {
    forall cursor :: fetch(cursor).Ok? && Truthy(fetch(cursor).value.token) ==>
        fetch(cursor).value.token.value in tokens
  }

  /** The results of all pages followed from a cursor: to the last page, or to the first repeated token. */
  ghost function Followed(fetch: Fetch, tokens: set<string>, seen: set<string>,
                          cursor: Option<string>): Result<seq<TimeResult>, string>
    requires TokensWithin(fetch, tokens)
    decreases tokens - seen
  {
    match fetch(cursor)
    case Err(e) => Err(e)
    case Ok(page) =>
      if !Truthy(page.token) || page.token.value in seen then Ok(page.results)
      else
        match Followed(fetch, tokens, seen + {page.token.value}, page.token)
        case Err(e) => Err(e)
        case Ok(rest) => Ok(page.results + rest)
  }

  /* ----- which pages are read ----- */

  /** The pages read one after another from a cursor: each further one under the token of the one before it,
      which is not empty and new. */
  ghost predicate Reads(fetch: Fetch, seen: set<string>, cursor: Option<string>, pages: seq<Page>) {
    && |pages| >= 1 && fetch(cursor) == Ok(pages[0])
    && (forall i :: 0 <= i < |pages| - 1 ==> IsNew(seen, pages, i) && fetch(pages[i].token) == Ok(pages[i + 1]))
  }

  /** The token of page `i` is there, and neither known before nor the token of an earlier page. */
  ghost predicate IsNew(seen: set<string>, pages: seq<Page>, i: int)
    requires 0 <= i < |pages|
  {
    && pages[i].token.Some? && pages[i].token.value != "" && pages[i].token.value !in seen
    && forall j :: 0 <= j < i ==> pages[j].token != pages[i].token
  }

  function AllResults(pages: seq<Page>): seq<TimeResult> {
    if |pages| == 0 then [] else pages[0].results + AllResults(pages[1..])
  }

  /** Reading stops with the last of these pages. */
  ghost predicate ReadsAll(fetch: Fetch, seen: set<string>, cursor: Option<string>, pages: seq<Page>) {
    Reads(fetch, seen, cursor, pages) && !IsNew(seen, pages, |pages| - 1)
  }

  /** Reading breaks off behind these pages. */
  ghost predicate BreaksAfter(fetch: Fetch, seen: set<string>, cursor: Option<string>, pages: seq<Page>,
                              error: string) {
    if |pages| == 0 then fetch(cursor) == Err(error)
    else
      && Reads(fetch, seen, cursor, pages) && IsNew(seen, pages, |pages| - 1)
      && fetch(pages[|pages| - 1].token) == Err(error)
  }

  lemma TailReads(fetch: Fetch, seen: set<string>, cursor: Option<string>, pages: seq<Page>)
    requires |pages| >= 2 && fetch(cursor) == Ok(pages[0])
    requires IsNew(seen, pages, 0) && fetch(pages[0].token) == Ok(pages[1])
    ensures var rest := pages[1..];
            && (Reads(fetch, seen, cursor, pages)
                <==> Reads(fetch, seen + {pages[0].token.value}, pages[0].token, rest))
            && (forall i :: 0 <= i < |rest| ==>
                  (IsNew(seen + {pages[0].token.value}, rest, i) <==> IsNew(seen, pages, i + 1)))
  {
    var rest, now := pages[1..], seen + {pages[0].token.value};
    forall i | 0 <= i < |rest| ensures IsNew(now, rest, i) <==> IsNew(seen, pages, i + 1) {
      if IsNew(now, rest, i) {
        forall j | 0 <= j < i + 1 ensures pages[j].token != pages[i + 1].token {
          if j > 0 { assert rest[j - 1].token != rest[i].token; }
        }
      }
      if IsNew(seen, pages, i + 1) {
        assert pages[0].token != pages[i + 1].token;
        forall j | 0 <= j < i ensures rest[j].token != rest[i].token {
          assert pages[j + 1].token != pages[i + 1].token;
        }
      }
    }
    if Reads(fetch, seen, cursor, pages) {
      forall i | 0 <= i < |rest| - 1 ensures IsNew(now, rest, i) && fetch(rest[i].token) == Ok(rest[i + 1]) {
        assert IsNew(seen, pages, i + 1) && fetch(pages[i + 1].token) == Ok(pages[i + 1 + 1]);
      }
    }
    if Reads(fetch, now, pages[0].token, rest) {
      forall i | 0 <= i < |pages| - 1 ensures IsNew(seen, pages, i) && fetch(pages[i].token) == Ok(pages[i + 1]) {
        if i > 0 { assert IsNew(now, rest, i - 1) && fetch(rest[i - 1].token) == Ok(rest[i - 1 + 1]); }
      }
    }
  }

  lemma {:induction false} FollowedReads(fetch: Fetch, tokens: set<string>, seen: set<string>, cursor: Option<string>)
    returns (pages: seq<Page>)
    requires TokensWithin(fetch, tokens)
    ensures match Followed(fetch, tokens, seen, cursor)
            case Ok(results) => ReadsAll(fetch, seen, cursor, pages) && results == AllResults(pages)
            case Err(error) => BreaksAfter(fetch, seen, cursor, pages, error)
    decreases tokens - seen
  {
    if fetch(cursor).Err? { return []; }
    var page := fetch(cursor).value;
    pages := [page];
    if Truthy(page.token) && page.token.value !in seen {
      var now := seen + {page.token.value};
      var rest := FollowedReads(fetch, tokens, now, page.token);
      pages := [page] + rest;
      assert IsNew(seen, pages, 0);
      if |rest| > 0 {
        assert pages[1..] == rest;
        TailReads(fetch, seen, cursor, pages);
        assert IsNew(now, rest, |rest| - 1) <==> IsNew(seen, pages, |rest| - 1 + 1);
      }
    }
  }

  lemma {:induction false} ReadIsFollowed(fetch: Fetch, tokens: set<string>, seen: set<string>, cursor: Option<string>,
                                          pages: seq<Page>, error: string)
    requires TokensWithin(fetch, tokens)
    ensures ReadsAll(fetch, seen, cursor, pages) ==> Followed(fetch, tokens, seen, cursor) == Ok(AllResults(pages))
    ensures BreaksAfter(fetch, seen, cursor, pages, error) ==> Followed(fetch, tokens, seen, cursor) == Err(error)
    decreases |pages|
  {
    if |pages| >= 2 && Reads(fetch, seen, cursor, pages) {
      assert IsNew(seen, pages, 0) && fetch(pages[0].token) == Ok(pages[0 + 1]);
      TailReads(fetch, seen, cursor, pages);
      var rest := pages[1..];
      assert IsNew(seen + {pages[0].token.value}, rest, |rest| - 1) <==> IsNew(seen, pages, |rest| - 1 + 1);
      ReadIsFollowed(fetch, tokens, seen + {pages[0].token.value}, pages[0].token, rest, error);
    } else if |pages| == 1 {
      assert pages[1..] == [];
      assert AllResults(pages) == pages[0].results + [] == pages[0].results;
    }
  }

  /** Every page is read. The results are those of all pages that follow one another by their tokens, the last
      of which has no token, an empty one, or one that was followed before; or else the error of the first page
      on that way that could not be read. */
  lemma EveryPageIsRead(fetch: Fetch, tokens: set<string>, r: Result<seq<TimeResult>, string>)
    requires TokensWithin(fetch, tokens)
    ensures Followed(fetch, tokens, {}, None) == r <==>
            match r
            case Ok(results) => exists pages :: ReadsAll(fetch, {}, None, pages) && results == AllResults(pages)
            case Err(error) => exists pages :: BreaksAfter(fetch, {}, None, pages, error)
  {
    var read := FollowedReads(fetch, tokens, {}, None);
    match r
    case Ok(results) =>
      forall pages | ReadsAll(fetch, {}, None, pages)
        ensures Followed(fetch, tokens, {}, None) == Ok(AllResults(pages))
      {
        ReadIsFollowed(fetch, tokens, {}, None, pages, "");
      }
    case Err(error) =>
      forall pages | BreaksAfter(fetch, {}, None, pages, error)
        ensures Followed(fetch, tokens, {}, None) == Err(error)
      {
        ReadIsFollowed(fetch, tokens, {}, None, pages, error);
      }
  }

  /** The same accumulation, started from the periods at hand. */
  function AccumulateOnto(periods: seq<Keyed>, results: seq<TimeResult>, d: Dates): seq<Keyed>
    decreases |results|
  {
    if |results| == 0 then periods else AccumulateOnto(Accumulate(periods, results[0], d), results[1..], d)
  }

  lemma {:induction false} OntoContinuesAll(read: seq<TimeResult>, results: seq<TimeResult>, d: Dates)
    ensures AccumulateOnto(AccumulateAll(read, d), results, d) == AccumulateAll(read + results, d)
    decreases |results|
  {
    if |results| == 0 {
      assert read + results == read;
    } else {
      var next := read + [results[0]];
      assert next[..|next| - 1] == read;
      assert next + results[1..] == read + results;
      OntoContinuesAll(next, results[1..], d);
    }
  }

  /** One page, folded into what the pages before it left. */
  method AccumulatePage(periods: seq<Keyed>, results: seq<TimeResult>, d: Dates) returns (after: seq<Keyed>)
    ensures after == AccumulateOnto(periods, results, d)
  {
    after := periods;
    for i := 0 to |results|
      invariant AccumulateOnto(after, results[i..], d) == AccumulateOnto(periods, results, d)
    {
      assert results[i..][1..] == results[i + 1..];
      after := AccumulatePeriod(after, results[i], d);
    }
  }

  /** `MoneyUtil.round`: to the nearest cent, halves upwards. */
  function Rounded(amount: real): real {
    (amount * 100.0 + 0.5).Floor as real / 100.0
  }

  /** A reported total is a whole number of cents within half a cent of its breakdown's sum. */
  lemma RoundedIsNearest(p: Period, cents: int)
    requires p.total == SumOf(p.breakdown)
    ensures var reported := Rounded(p.total);
            && -0.005 < reported - SumOf(p.breakdown) <= 0.005
            && (reported == cents as real / 100.0
                <==> cents as real - 0.5 <= 100.0 * SumOf(p.breakdown) < cents as real + 0.5)
  {
    var x := p.total * 100.0 + 0.5;
    assert x.Floor as real <= x < x.Floor as real + 1.0;
    if x.Floor < cents { assert x.Floor as real + 1.0 <= cents as real; }
    if x.Floor > cents { assert x.Floor as real >= cents as real + 1.0; }
  }

  function PeriodsOf(periods: seq<Keyed>): seq<Period> {
    seq(|periods|, i requires 0 <= i < |periods| => periods[i].period.(total := Rounded(periods[i].period.total)))
  }

  /** The accumulated periods of everything that was read, or the error that stopped the reading. */
  function Reported(read: Result<seq<TimeResult>, string>, d: Dates): Result<seq<Period>, string> {
    if read.Err? then Err(read.error) else Ok(PeriodsOf(AccumulateAll(read.value, d)))
  }

  /** A whole number of cents within half a cent of an amount. */
  ghost predicate IsCentsOf(reported: real, amount: real) {
    -0.005 < reported - amount <= 0.005 && reported * 100.0 == (reported * 100.0).Floor as real
  }

  /** What is reported, from the results that were read: one period for every key that arrived and no other,
      with the first arrival's dates, the cost of each service to the last digit, and a total in whole cents. */
  lemma ReportedPeriods(results: seq<TimeResult>, d: Dates, key: string, service: string)
    returns (first: nat, n: nat)
    requires exists i :: 0 <= i < |results| && KeyOf(results[i], d) == key
    ensures FirstAt(results, key, d, first)
    ensures var ps := Reported(Ok(results), d).value;
            && n < |ps| && ps[n].start + "|" + ps[n].end == key
            && (forall m :: 0 <= m < |ps| && ps[m].start + "|" + ps[m].end == key ==> m == n)
            && ps[n].start == (match results[first].start case Some(start) => start case None => d.start)
            && ps[n].end == (match results[first].end case Some(end) => end case None => d.end)
            && NamedLast(GroupsFor(results, key, d), ps[n].currency)
            && NamesOnce(ps[n].breakdown)
            && CostOf(ps[n].breakdown, service) == ServiceSum(GroupsFor(results, key, d), service)
            && IsCentsOf(ps[n].total, PositiveSum(GroupsFor(results, key, d)))
  {
    if Opened(results, key, d).None? { NeverOpened(results, key, d); }
    PeriodFigures(results, d, key, service);
    first := PeriodLabels(results, d, key);
    n := IndexOf(AccumulateAll(results, d), key);
    RoundedIsCents(AccumulateAll(results, d)[n].period);
    ReportedOnce(results, d, n);
  }

  lemma RoundedIsCents(p: Period)
    requires p.total == SumOf(p.breakdown)
    ensures IsCentsOf(Rounded(p.total), p.total)
  {
    RoundedIsNearest(p, 0);
    var cents := (p.total * 100.0 + 0.5).Floor;
    assert Rounded(p.total) * 100.0 == cents as real;
  }

  lemma ReportedOnce(results: seq<TimeResult>, d: Dates, n: nat)
    requires n < |AccumulateAll(results, d)|
    ensures var ps := Reported(Ok(results), d).value;
            && |ps| == |AccumulateAll(results, d)|
            && ps[n].start + "|" + ps[n].end == AccumulateAll(results, d)[n].key
            && forall m :: 0 <= m < |ps| && ps[m].start + "|" + ps[m].end == AccumulateAll(results, d)[n].key ==> m == n
  {
    var periods := AccumulateAll(results, d);
    var ps := Reported(Ok(results), d).value;
    forall m | 0 <= m < |ps| ensures ps[m].start + "|" + ps[m].end == periods[m].key {
      OnlyArrivalsAreReported(results, d, m);
    }
    OneEntryPerPeriod(results, d, "");
  }

  lemma OnlyArrivalsAreReported(results: seq<TimeResult>, d: Dates, m: nat)
    requires m < |AccumulateAll(results, d)|
    ensures var p := Reported(Ok(results), d).value[m];
            && p.start + "|" + p.end == AccumulateAll(results, d)[m].key
            && exists i :: 0 <= i < |results| && KeyOf(results[i], d) == p.start + "|" + p.end
  {
    var periods := AccumulateAll(results, d);
    var key := periods[m].key;
    OneEntryPerPeriod(results, d, key);
    IndexIs(periods, key, m);
    PeriodFigures(results, d, key, "");
    var i := OpenedByFirstArrival(results, key, d);
    assert KeyOf(results[i], d) == key;
  }

  /** One more result leaves the keys at hand where they are, and adds its own at the end if it is new. */
  lemma KeysAfter(results: seq<TimeResult>, d: Dates)
    requires |results| > 0
    ensures var n := |results| - 1;
            var before, after := AccumulateAll(results[..n], d), AccumulateAll(results, d);
            && |before| <= |after| <= |before| + 1
            && (forall x :: 0 <= x < |before| ==> after[x].key == before[x].key)
            && (|after| > |before| ==>
                  forall y :: 0 <= y < n ==> KeyOf(results[y], d) != after[|before|].key == KeyOf(results[n], d))
  {
    var n := |results| - 1;
    var before, key := AccumulateAll(results[..n], d), KeyOf(results[n], d);
    if |AccumulateAll(results, d)| > |before| {
      OneEntryPerPeriod(results[..n], d, key);
      NeverOpened(results[..n], key, d);
      forall y | 0 <= y < n ensures KeyOf(results[y], d) != key { assert results[..n][y] == results[y]; }
    }
  }

  /** Where a key first arrives among the results, it does so among the earlier ones, if it is theirs too. */
  lemma FirstAmongEarlier(results: seq<TimeResult>, d: Dates, m: nat, key: string, i: nat, n: nat)
    requires n <= |results| && FirstAt(results, key, d, i)
    requires m < |AccumulateAll(results[..n], d)| && AccumulateAll(results[..n], d)[m].key == key
    ensures i < n && FirstAt(results[..n], key, d, i)
  {
    OnlyArrivalsAreReported(results[..n], d, m);
    var y :| 0 <= y < n && KeyOf(results[..n][y], d) == key;
    assert KeyOf(results[y], d) == key;
  }

  /** Periods are reported in the order in which they first arrived. */
  lemma {:induction false} ReportedInArrivalOrder(results: seq<TimeResult>, d: Dates, m: nat, k: nat, i: nat, j: nat)
    requires m < k < |AccumulateAll(results, d)|
    requires FirstAt(results, AccumulateAll(results, d)[m].key, d, i)
    requires FirstAt(results, AccumulateAll(results, d)[k].key, d, j)
    ensures i < j
    decreases |results|
  {
    var n := |results| - 1;
    var mine, other := AccumulateAll(results, d)[m].key, AccumulateAll(results, d)[k].key;
    KeysAfter(results, d);
    FirstAmongEarlier(results, d, m, mine, i, n);
    if k < |AccumulateAll(results[..n], d)| {
      FirstAmongEarlier(results, d, k, other, j, n);
      ReportedInArrivalOrder(results[..n], d, m, k, i, j);
    } else {
      assert j >= n;
    }
  }

  /** `getCostAndUsage`. It stops because every further page needs an unseen token. */
  method GetCostAndUsage(fetch: Fetch, ghost tokens: set<string>, d: Dates) returns (r: Result<seq<Period>, string>)
    requires TokensWithin(fetch, tokens)
    ensures r == Reported(Followed(fetch, tokens, {}, None), d)
  {
    var periods: seq<Keyed> := [];
    var seenTokens: set<string> := {};
    var nextPageToken: Option<string> := None;
    ghost var read: seq<TimeResult> := [];
    assert Followed(fetch, tokens, {}, None).Ok? ==>
        [] + Followed(fetch, tokens, {}, None).value == Followed(fetch, tokens, {}, None).value;
    while true
      invariant periods == AccumulateAll(read, d)
      invariant match Followed(fetch, tokens, seenTokens, nextPageToken)
                case Err(e) => Followed(fetch, tokens, {}, None) == Err(e)
                case Ok(rest) => Followed(fetch, tokens, {}, None) == Ok(read + rest)
      decreases tokens - seenTokens
    {
      var fetched := fetch(nextPageToken);
      if fetched.Err? { return Err(fetched.error); }
      var page := fetched.value;
      periods := AccumulatePage(periods, page.results, d);
      OntoContinuesAll(read, page.results, d);
      if !Truthy(page.token) || page.token.value in seenTokens {
        read := read + page.results;
        break;
      }
      var token := page.token.value;
      AppendAssociates(fetch, tokens, seenTokens, token, read, page.results);
      read := read + page.results;
      seenTokens := seenTokens + {token};
      nextPageToken := page.token;
    }
    r := Ok(PeriodsOf(periods));
  }

  lemma AppendAssociates(fetch: Fetch, tokens: set<string>, seen: set<string>, token: string, before: seq<TimeResult>,
                         page: seq<TimeResult>)
    requires TokensWithin(fetch, tokens)
    ensures Followed(fetch, tokens, seen + {token}, Some(token)).Ok? ==>
              var rest := Followed(fetch, tokens, seen + {token}, Some(token)).value;
              before + (page + rest) == (before + page) + rest
  {}

  method AccumulatePeriod(periods: seq<Keyed>, r: TimeResult, d: Dates) returns (after: seq<Keyed>)
    ensures after == Accumulate(periods, r, d)
  {
    var key := StartOf(r, d) + "|" + EndOf(r, d);
    var i := 0;
    while i < |periods| && periods[i].key != key
      invariant 0 <= i <= |periods|
      invariant forall j :: 0 <= j < i ==> periods[j].key != key
    {
      i := i + 1;
    }
    var period := if i < |periods| then periods[i].period else Period(StartOf(r, d), EndOf(r, d), "USD", 0.0, []);
    ghost var start := period;
    for k := 0 to |r.groups|
      invariant AddGroups(start, r.groups) == AddGroups(period, r.groups[k..])
    {
      var group := r.groups[k];
      assert r.groups[k..][1..] == r.groups[k + 1..];
      if Truthy(group.unit) { period := period.(currency := group.unit.value); }
      var amount := if group.amount.Some? then group.amount.value else 0.0;
      if amount <= 0.0 { continue; }
      period := period.(breakdown := AddService(period.breakdown, ServiceOf(group), amount),
                        total := period.total + amount);
    }
    after := if i < |periods| then periods[i := Keyed(key, period)] else periods + [Keyed(key, period)];
  }
}
