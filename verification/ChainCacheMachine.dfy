/**
 The credential table, its cache and every run over them.

 A flight is a walk that assumes roles: a refresh, along a chain the cold walk accepts, or an interactive
 assumption. Before an interactive flight there is an ask: first the cached walk, one lookup at a time,
 then a second search of the cache for the entry closest to the target. Each lookup is a step with its
 own clock, so entries may come and go between any two of them. Asks and flights interleave with each
 other, with expiries and invalidations, and with writes to the table.

 `origin` remembers, for each cached principal, the chain its entry was folded along and the trust path
 that was followed; neither ever influences a step.
 */
module ChainCacheMachine {
  import opened Prelude
  import opened CredentialModel
  import opened ChainWalks
  import opened RoleSessions
  import opened CredentialCache

  /** Where credentials come from: the chain they were folded along, and the whole path to its base. */
  datatype Origin = Origin(chain: Chain, route: seq<Arn>)

  /** `next` is the index of the hop to assume next; hops at index 0 and below leave no entry. */
  datatype Flight = Flight(origin: Origin, next: nat, creds: AccessKeys)

  /** An interactive request before it assumes anything: walking towards a cached hop or the base, or
      searching the served chain from the target upwards for a live entry at `next + 1`. */
  datatype Ask =
    | Walking(target: Arn, visited: seq<Arn>, at: Arn)
    | Searching(chain: Chain, past: Origin, next: nat)
    | Over

  datatype World = World(
    store: Store,
    entries: Entries,
    origin: map<Arn, Origin>,
    flights: seq<Flight>,
    asks: seq<Ask>)

  datatype Step =
    | StartRefresh(target: Arn)
    | BeginAssume(target: Arn)
    | Read(ask: nat, now: int)
    | Hop(flight: nat)
    | Crash(flight: nat)
    | Drop(arn: Arn)
    | WriteRow(arn: Arn, row: Row)
    | RemoveRow(arn: Arn)

  /** What a chain that ends at a cached principal stands for. */
  function Continued(w: World, arns: seq<Arn>, keys: AccessKeys): Origin
    requires |arns| >= 1
  {
    var last := arns[|arns| - 1];
    var head := arns[..|arns| - 1];
    if last in w.origin then
      Origin(Chain(head + w.origin[last].chain.arns, w.origin[last].chain.keys), head + w.origin[last].route)
    else Origin(Chain(arns, keys), arns)
  }

  /** One round of the cached walk. */
  function WalkOn(w: World, limit: nat, live: LiveView, target: Arn, visited: seq<Arn>, at: Arn): Ask {
    var arns := visited + [at];
    if at != target && |arns| < limit && at in live
    then Searching(Chain(arns, live[at]), Continued(w, arns, live[at]), 0)
    else
      match Lookup(w.store, at)
      case Err(_) => Over
      case Ok(row) =>
        match NextHop(row)
        case None => if Finish(row, arns).Ok? then Served(Finish(row, arns).value) else Over
        case Some(hop) => if |arns| >= limit then Over else Walking(target, arns, hop)
  }

  function Served(c: Chain): Ask {
    Searching(c, Origin(c, c.arns), 0)
  }

  /** The flight from the live entry of `c.arns[i]`. */
  function FromEntry(w: World, c: Chain, i: nat, keys: AccessKeys): Flight
    requires 1 <= i < |c.arns|
  {
    Flight(Continued(w, c.arns[..i + 1], keys), i - 1, keys)
  }

  /** The flight when no entry was found: from the served chain's own keys, whose session token the search
      does not carry over. */
  function FromChain(c: Chain, past: Origin): Flight {
    var keys := c.keys.(sessionToken := None);
    Flight(Origin(Chain(c.arns, keys), past.route), if |c.arns| >= 2 then |c.arns| - 2 else 0, keys)
  }

  /** One lookup: what becomes of the ask, and the flight it may start. */
  function Looked(w: World, live: LiveView, c: Chain, past: Origin, next: nat): (Ask, seq<Flight>) {
    if next + 1 >= |c.arns| then (Over, [FromChain(c, past)])
    else if c.arns[next + 1] in live then (Over, [FromEntry(w, c, next + 1, live[c.arns[next + 1]])])
    else (Searching(c, past, next + 1), [])
  }

  function Answered(w: World, limit: nat, live: LiveView, ask: Ask): (Ask, seq<Flight>) {
    match ask
    case Walking(target, visited, at) => (WalkOn(w, limit, live, target, visited, at), [])
    case Searching(c, past, next) => Looked(w, live, c, past, next)
    case Over => (Over, [])
  }

  function ReadNext(w: World, limit: nat, a: nat, now: int): World
    requires a < |w.asks|
  {
    var (ask, flights) := Answered(w, limit, Live(w.entries, now), w.asks[a]);
    w.(asks := w.asks[a := ask], flights := w.flights + flights)
  }

  /** The origin of the principal at `next`, along the same path. */
  function Rest(o: Origin, next: nat): Origin
    requires next <= |o.chain.arns|
  {
    Origin(Chain(o.chain.arns[next..], o.chain.keys), if next <= |o.route| then o.route[next..] else [])
  }

  predicate CanHop(w: World, f: nat) {
    f < |w.flights| && 1 <= w.flights[f].next < |w.flights[f].origin.chain.arns|
  }

  function HopOver(sts: AssumeRole, w: World, f: nat): World
    requires CanHop(w, f)
  {
    var Flight(o, next, creds) := w.flights[f];
    var q := o.chain.arns[next];
    match sts(q, creds)
    case Err(_) => w.(flights := w.flights[f := w.flights[f].(next := 0)])
    case Ok(session) =>
      w.(entries := PutSession(w.entries, q, session),
         origin := if Cacheable(Ok(session)) then w.origin[q := Rest(o, next)] else w.origin,
         flights := w.flights[f := Flight(o, next - 1, session.keys)])
  }

  function Next(sts: AssumeRole, limit: nat, w: World, s: Step): World
    requires limit >= 1
  {
    match s
    case StartRefresh(target) =>
      (match ColdWalk(w.store, limit, target)
       case Err(_) => w
       case Ok(c) => w.(flights := w.flights + [Flight(Origin(c, c.arns), |c.arns| - 2, c.keys)]))
    case BeginAssume(target) => w.(asks := w.asks + [Walking(target, [], target)])
    case Read(a, now) => if a < |w.asks| then ReadNext(w, limit, a, now) else w
    case Hop(f) => if CanHop(w, f) then HopOver(sts, w, f) else w
    case Crash(f) => if f < |w.flights| then w.(flights := w.flights[f := w.flights[f].(next := 0)]) else w
    case Drop(arn) => w.(entries := w.entries - {arn})
    case WriteRow(arn, row) => w.(store := w.store[arn := row])
    case RemoveRow(arn) => w.(store := w.store - {arn})
  }

  function Run(sts: AssumeRole, limit: nat, w: World, steps: seq<Step>): World
    requires limit >= 1
    decreases |steps|
  {
    if |steps| == 0 then w else Run(sts, limit, Next(sts, limit, w, steps[0]), steps[1..])
  }

  function Start(store: Store): World {
    World(store, map[], map[], [], [])
  }

  lemma RunOne(sts: AssumeRole, limit: nat, w: World, s: Step, rest: seq<Step>)
    requires limit >= 1
    ensures Run(sts, limit, w, [s] + rest) == Run(sts, limit, Next(sts, limit, w, s), rest)
  {
    assert ([s] + rest)[1..] == rest;
  }

  lemma {:induction false} RunAppends(sts: AssumeRole, limit: nat, w: World, a: seq<Step>, b: seq<Step>)
    requires limit >= 1
    ensures Run(sts, limit, w, a + b) == Run(sts, limit, Run(sts, limit, w, a), b)
    decreases |a|
  {
    if |a| == 0 {
      assert a + b == b;
    } else {
      assert (a + b)[1..] == a[1..] + b;
      RunAppends(sts, limit, Next(sts, limit, w, a[0]), a[1..], b);
    }
  }

  /* ----- every entry is what its origin folds to, whatever happens to the table ----- */

  ghost predicate EntryFolds(sts: AssumeRole, q: Arn, e: Entry, from: Chain) {
    && |from.arns| >= 1 && from.arns[0] == q
    && forall now :: ReadEntry(e, now).Some? ==> Fold(sts, from.arns, from.keys) == Ok(ReadEntry(e, now).value)
  }

  ghost predicate FlightFolds(sts: AssumeRole, f: Flight) {
    1 <= f.next ==>
      && f.next + 1 < |f.origin.chain.arns|
      && Fold(sts, f.origin.chain.arns[f.next + 1..], f.origin.chain.keys) == Ok(f.creds)
  }

  /** A served chain is the beginning of the chain behind it, and its keys are what that folds to. */
  ghost predicate AskFolds(sts: AssumeRole, a: Ask) {
    a.Searching? ==>
      && 1 <= |a.chain.arns| <= |a.past.chain.arns|
      && a.chain.arns == a.past.chain.arns[..|a.chain.arns|]
      && Fold(sts, a.past.chain.arns[|a.chain.arns| - 1..], a.past.chain.keys) == Ok(a.chain.keys)
  }

  ghost predicate Coherent(sts: AssumeRole, w: World) {
    && (forall q :: q in w.entries ==> q in w.origin && EntryFolds(sts, q, w.entries[q], w.origin[q].chain))
    && (forall f :: 0 <= f < |w.flights| ==> FlightFolds(sts, w.flights[f]))
    && (forall a :: 0 <= a < |w.asks| ==> AskFolds(sts, w.asks[a]))
  }

  lemma ContinuedFolds(sts: AssumeRole, w: World, now: int, arns: seq<Arn>)
    requires Coherent(sts, w) && |arns| >= 1 && arns[|arns| - 1] in Live(w.entries, now)
    ensures var keys := Live(w.entries, now)[arns[|arns| - 1]];
            var past := Continued(w, arns, keys);
            && |past.chain.arns| >= |arns| && past.chain.arns[..|arns|] == arns
            && Fold(sts, past.chain.arns[|arns| - 1..], past.chain.keys) == Ok(keys)
  {
    var last := arns[|arns| - 1];
    var from := w.origin[last].chain;
    assert EntryFolds(sts, last, w.entries[last], from);
    assert (arns[..|arns| - 1] + from.arns)[|arns| - 1..] == from.arns;
  }

  lemma WalkOnFolds(sts: AssumeRole, w: World, limit: nat, now: int, target: Arn, visited: seq<Arn>, at: Arn)
    requires Coherent(sts, w)
    ensures AskFolds(sts, WalkOn(w, limit, Live(w.entries, now), target, visited, at))
  {
    var arns := visited + [at];
    if at in Live(w.entries, now) { ContinuedFolds(sts, w, now, arns); }
    assert |arns[|arns| - 1..]| == 1;
  }

  lemma FromEntryFolds(sts: AssumeRole, w: World, now: int, c: Chain, i: nat)
    requires Coherent(sts, w) && 1 <= i < |c.arns| && c.arns[i] in Live(w.entries, now)
    ensures FlightFolds(sts, FromEntry(w, c, i, Live(w.entries, now)[c.arns[i]]))
  {
    ContinuedFolds(sts, w, now, c.arns[..i + 1]);
  }

  lemma FromChainFolds(sts: AssumeRole, c: Chain, past: Origin)
    ensures FlightFolds(sts, FromChain(c, past))
  {
    if |c.arns| >= 2 { assert |c.arns[|c.arns| - 2 + 1..]| == 1; }
  }

  lemma WithAskAndFlight(sts: AssumeRole, w: World, a: nat, ask: Ask, flights: seq<Flight>)
    requires Coherent(sts, w) && a < |w.asks| && AskFolds(sts, ask)
    requires forall i :: 0 <= i < |flights| ==> FlightFolds(sts, flights[i])
    ensures Coherent(sts, w.(asks := w.asks[a := ask], flights := w.flights + flights))
  {}

  lemma LookedFolds(sts: AssumeRole, w: World, c: Chain, past: Origin, next: nat, now: int)
    requires Coherent(sts, w) && AskFolds(sts, Searching(c, past, next))
    ensures var (after, flights) := Looked(w, Live(w.entries, now), c, past, next);
            AskFolds(sts, after) && forall i :: 0 <= i < |flights| ==> FlightFolds(sts, flights[i])
  {
    if next + 1 >= |c.arns| {
      FromChainFolds(sts, c, past);
    } else if c.arns[next + 1] in Live(w.entries, now) {
      FromEntryFolds(sts, w, now, c, next + 1);
    }
  }

  lemma AnsweredFolds(sts: AssumeRole, limit: nat, w: World, ask: Ask, now: int)
    requires Coherent(sts, w) && AskFolds(sts, ask)
    ensures var (after, flights) := Answered(w, limit, Live(w.entries, now), ask);
            AskFolds(sts, after) && forall i :: 0 <= i < |flights| ==> FlightFolds(sts, flights[i])
  {
    match ask
    case Walking(target, visited, at) => WalkOnFolds(sts, w, limit, now, target, visited, at);
    case Searching(c, past, next) => LookedFolds(sts, w, c, past, next, now);
    case Over =>
  }

  lemma ReadKeepsCoherent(sts: AssumeRole, limit: nat, w: World, a: nat, now: int)
    requires Coherent(sts, w) && a < |w.asks|
    ensures Coherent(sts, ReadNext(w, limit, a, now))
  {
    assert AskFolds(sts, w.asks[a]);
    AnsweredFolds(sts, limit, w, w.asks[a], now);
    var (ask, flights) := Answered(w, limit, Live(w.entries, now), w.asks[a]);
    WithAskAndFlight(sts, w, a, ask, flights);
  }

  lemma HopKeepsCoherent(sts: AssumeRole, w: World, f: nat)
    requires Coherent(sts, w) && CanHop(w, f)
    ensures Coherent(sts, HopOver(sts, w, f))
  {
    assert FlightFolds(sts, w.flights[f]);
    FoldStep(sts, w.flights[f].origin.chain, w.flights[f].next);
    var after := HopOver(sts, w, f);
    forall g | 0 <= g < |after.flights| ensures FlightFolds(sts, after.flights[g]) {
      if g != f { assert FlightFolds(sts, w.flights[g]); }
    }
    forall q | q in after.entries
      ensures q in after.origin && EntryFolds(sts, q, after.entries[q], after.origin[q].chain)
    {
      if q in w.entries { assert EntryFolds(sts, q, w.entries[q], w.origin[q].chain); }
    }
  }

  lemma StepKeepsCoherent(sts: AssumeRole, limit: nat, w: World, s: Step)
    requires limit >= 1 && Coherent(sts, w)
    ensures Coherent(sts, Next(sts, limit, w, s))
  {
    match s
    case StartRefresh(target) =>
      var r := ColdWalk(w.store, limit, target);
      if r.Ok? { assert |r.value.arns[|r.value.arns| - 2 + 1..]| == 1; }
    case BeginAssume(target) =>
    case Read(a, now) => if a < |w.asks| { ReadKeepsCoherent(sts, limit, w, a, now); }
    case Hop(f) => if CanHop(w, f) { HopKeepsCoherent(sts, w, f); }
    case Crash(f) =>
    case Drop(arn) =>
    case WriteRow(arn, row) =>
    case RemoveRow(arn) =>
  }

  /** In every state of every run, table writes included, each cached principal holds exactly the
      credentials that folding its recorded chain produces. */
  lemma {:induction false} RunKeepsCoherent(sts: AssumeRole, limit: nat, w: World, steps: seq<Step>)
    requires limit >= 1 && Coherent(sts, w)
    ensures Coherent(sts, Run(sts, limit, w, steps))
    decreases |steps|
  {
    if |steps| > 0 {
      StepKeepsCoherent(sts, limit, w, steps[0]);
      RunKeepsCoherent(sts, limit, Next(sts, limit, w, steps[0]), steps[1..]);
    }
  }

  /** The whole chain a served chain stands for: itself, or, when a cached hop cut it short, its prefix
      continued along that hop's origin. */
  ghost function Completed(w: World, target: Arn, c: Chain): Chain
    requires |c.arns| >= 1
  {
    if TrueChain(w.store, target, c) then c else Continued(w, c.arns, c.keys).chain
  }

  /** A served chain whose cached hop still has the route it was warmed along is the beginning of the
      target's true chain, and walking it ends in the same credentials, or the same refusal. Only the
      part of the table on that route matters, so writes elsewhere are harmless. */
  lemma ServedChainMeansTrueChain(sts: AssumeRole, limit: nat, w: World, target: Arn, now: int, c: Chain)
    requires limit >= 1 && Coherent(sts, w)
    requires CachedWalk(w.store, Live(w.entries, now), limit, target) == Ok(c)
    requires var last := c.arns[|c.arns| - 1];
             || TrueChain(w.store, target, c)
             || (last in w.origin && TrueChain(w.store, last, w.origin[last].chain))
    ensures var t := Completed(w, target, c);
            && TrueChain(w.store, target, t)
            && |t.arns| >= |c.arns| && c.arns == t.arns[..|c.arns|]
            && Fold(sts, c.arns, c.keys) == Fold(sts, t.arns, t.keys)
            && (|t.arns| <= limit <==> ColdWalk(w.store, limit, target) == Ok(t))
  {
    var live := Live(w.entries, now);
    CachedWalkServes(w.store, live, limit, target, c);
    var n := |c.arns|;
    var last := c.arns[n - 1];
    var t := Completed(w, target, c);
    if TrueChain(w.store, target, c) {
      assert c.arns == t.arns[..n];
    } else {
      ContinuedFolds(sts, w, now, c.arns);
      var from := w.origin[last].chain;
      PathJoin(w.store, c.arns, from.arns);
      FoldSplits(sts, c.arns[..n - 1], from.arns, from.keys, live[last]);
      assert EntryFolds(sts, last, w.entries[last], from);
      assert c.arns[..n - 1] + [last] == c.arns;
    }
    ColdWalkAccepts(w.store, limit, target, t);
  }

  /* ----- steps that nothing disturbs are the services' own loops ----- */

  function Reads(a: nat, now: int, n: nat): seq<Step> {
    seq(n, _ => Read(a, now))
  }

  function Hops(f: nat, n: nat): seq<Step> {
    seq(n, _ => Hop(f))
  }

  /** What an ask knows when its walk is served `c`. */
  function PastOf(w: World, live: LiveView, limit: nat, c: Chain): Origin
    requires |c.arns| > 0
  {
    if Hit(live, limit, c.arns, |c.arns| - 1) then Continued(w, c.arns, c.keys) else Origin(c, c.arns)
  }

  /** What the ask becomes when its walk answers `r`. */
  function Answer(w: World, live: LiveView, limit: nat, r: Result<Chain, ChainError>): Ask
    requires r.Ok? ==> |r.value.arns| > 0
  {
    match r
    case Err(_) => Over
    case Ok(c) => Searching(c, PastOf(w, live, limit, c), 0)
  }

  /** Closest live entry to the target, as `findClosestCachedCredential` looks for it: from index 1 up. */
  function Closest(live: LiveView, arns: seq<Arn>, from: nat): (k: Option<nat>)
    requires from <= |arns|
    ensures k.Some? ==> from <= k.value < |arns| && arns[k.value] in live
    ensures forall i :: from <= i < |arns| && (k.None? || i < k.value) ==> arns[i] !in live
    decreases |arns| - from
  {
    if from == |arns| then None
    else if arns[from] in live then Some(from)
    else Closest(live, arns, from + 1)
  }

  /** The flight that a search at one instant starts. */
  function Found(w: World, live: LiveView, c: Chain, past: Origin, from: nat): Flight
    requires 1 <= from <= |c.arns|
  {
    match Closest(live, c.arns, from)
    case Some(i) => FromEntry(w, c, i, live[c.arns[i]])
    case None => FromChain(c, past)
  }

  lemma ReadFirst(sts: AssumeRole, limit: nat, w: World, a: nat, now: int, rest: nat)
    requires limit >= 1 && a < |w.asks|
    ensures Run(sts, limit, w, Reads(a, now, rest + 1))
            == Run(sts, limit, ReadNext(w, limit, a, now), Reads(a, now, rest))
  {
    assert Reads(a, now, rest + 1) == [Read(a, now)] + Reads(a, now, rest);
    RunOne(sts, limit, w, Read(a, now), Reads(a, now, rest));
  }

  /** Rounds that follow each other at one instant are the cached walk. */
  lemma {:induction false} ReadsWalk(sts: AssumeRole, limit: nat, w: World, a: nat, now: int) returns (n: nat)
    requires limit >= 1 && a < |w.asks| && w.asks[a].Walking?
    requires |w.asks[a].visited| < limit && (w.asks[a].visited + [w.asks[a].at])[0] == w.asks[a].target
    ensures var live := Live(w.entries, now);
            var r := CachedFrom(w.store, live, limit, w.asks[a].target, w.asks[a].visited, w.asks[a].at);
            Run(sts, limit, w, Reads(a, now, n)) == w.(asks := w.asks[a := Answer(w, live, limit, r)])
    decreases limit - |w.asks[a].visited|
  {
    var Walking(target, visited, at) := w.asks[a];
    var after := ReadNext(w, limit, a, now);
    var rest := 0;
    if after.asks[a].Walking? { rest := ReadsWalk(sts, limit, after, a, now); }
    n := rest + 1;
    ReadFirst(sts, limit, w, a, now, rest);
  }

  /** Lookups that follow each other at one instant are the search for the closest entry. */
  lemma {:induction false} ReadsSearch(sts: AssumeRole, limit: nat, w: World, a: nat, now: int) returns (n: nat)
    requires limit >= 1 && a < |w.asks| && w.asks[a].Searching? && w.asks[a].next + 1 <= |w.asks[a].chain.arns|
    ensures var Searching(c, past, next) := w.asks[a];
            Run(sts, limit, w, Reads(a, now, n)) ==
            w.(asks := w.asks[a := Over], flights := w.flights + [Found(w, Live(w.entries, now), c, past, next + 1)])
    decreases |w.asks[a].chain.arns| - w.asks[a].next
  {
    var Searching(c, past, next) := w.asks[a];
    var after := ReadNext(w, limit, a, now);
    if after.asks[a].Over? {
      n := 1;
      ReadFirst(sts, limit, w, a, now, 0);
    } else {
      var rest := ReadsSearch(sts, limit, after, a, now);
      SearchGoesOn(w, limit, a, now);
      n := rest + 1;
      ReadFirst(sts, limit, w, a, now, rest);
    }
  }

  lemma SearchGoesOn(w: World, limit: nat, a: nat, now: int)
    requires a < |w.asks| && w.asks[a].Searching? && w.asks[a].next + 1 <= |w.asks[a].chain.arns|
    ensures var Searching(c, past, next) := w.asks[a];
            var after := ReadNext(w, limit, a, now);
            if after.asks[a].Over?
            then after.flights == w.flights + [Found(w, Live(w.entries, now), c, past, next + 1)]
            else
              && after == w.(asks := w.asks[a := Searching(c, past, next + 1)]) && next + 2 <= |c.arns|
              && Found(after, Live(w.entries, now), c, past, next + 2)
                  == Found(w, Live(w.entries, now), c, past, next + 1)
  {}

  predicate OnlyReads(steps: seq<Step>) {
    forall s :: s in steps ==> s.BeginAssume? || s.Read?
  }

  /** The walk of an interactive request, at one instant. */
  lemma AskIsServed(sts: AssumeRole, limit: nat, w: World, target: Arn, now: int, c: Chain) returns (steps: seq<Step>)
    requires limit >= 1 && CachedWalk(w.store, Live(w.entries, now), limit, target) == Ok(c)
    ensures OnlyReads(steps)
    ensures Run(sts, limit, w, steps) ==
            w.(asks := w.asks + [Searching(c, PastOf(w, Live(w.entries, now), limit, c), 0)])
  {
    var a := |w.asks|;
    var live := Live(w.entries, now);
    var begun := w.(asks := w.asks + [Walking(target, [], target)]);
    var walked := ReadsWalk(sts, limit, begun, a, now);
    assert begun.asks[a := Answer(begun, live, limit, Ok(c))] == w.asks + [Searching(c, PastOf(w, live, limit, c), 0)];
    steps := [BeginAssume(target)] + Reads(a, now, walked);
    RunOne(sts, limit, w, BeginAssume(target), Reads(a, now, walked));
  }

  /** An interactive request is a run of this machine: a walk at one instant and a search at another start
      the flight that the served chain and the entries found then call for. */
  lemma AskStartsFlight(sts: AssumeRole, limit: nat, w: World, target: Arn, now: int, later: int, c: Chain)
    returns (steps: seq<Step>)
    requires limit >= 1 && CachedWalk(w.store, Live(w.entries, now), limit, target) == Ok(c)
    ensures OnlyReads(steps)
    ensures Run(sts, limit, w, steps) ==
            w.(asks := w.asks + [Over],
               flights := w.flights
                          + [Found(w, Live(w.entries, later), c, PastOf(w, Live(w.entries, now), limit, c), 1)])
  {
    var walk := AskIsServed(sts, limit, w, target, now, c);
    var served := Run(sts, limit, w, walk);
    var searched := ReadsSearch(sts, limit, served, |w.asks|, later);
    assert served.asks[|w.asks| := Over] == w.asks + [Over];
    steps := walk + Reads(|w.asks|, later, searched);
    RunAppends(sts, limit, w, walk, Reads(|w.asks|, later, searched));
  }

  /** The part of a flight's chain that is still to be walked, from the credentials it holds. */
  function Ahead(f: Flight): Chain
    requires f.next + 2 <= |f.origin.chain.arns|
  {
    Chain(f.origin.chain.arns[..f.next + 2], f.creds)
  }

  /** A flight that takes its hops down to `low` undisturbed writes just what warming the chain ahead of
      it down to `low` writes. */
  lemma {:induction false} FlightWarms(sts: AssumeRole, limit: nat, w: World, f: nat, ahead: Chain, low: nat)
    requires limit >= 1 && f < |w.flights| && w.flights[f].next + 2 <= |w.flights[f].origin.chain.arns|
    requires ahead == Ahead(w.flights[f]) && 1 <= low < |ahead.arns|
    requires Fold(sts, ahead.arns[low..], ahead.keys).Ok?
    ensures var after := Run(sts, limit, w, Hops(f, |ahead.arns| - 1 - low));
            && after.store == w.store && after.asks == w.asks
            && after.entries == Warmed(sts, w.entries, ahead, low)
            && after.flights == w.flights[f := w.flights[f].(next := low - 1,
                                                             creds := Fold(sts, ahead.arns[low..], ahead.keys).value)]
    decreases |ahead.arns| - low
  {
    var n := |ahead.arns| - 1 - low;
    if n > 0 {
      FoldStep(sts, ahead, low);
      FlightWarms(sts, limit, w, f, ahead, low + 1);
      var before := Run(sts, limit, w, Hops(f, n - 1));
      assert Hops(f, n) == Hops(f, n - 1) + [Hop(f)];
      RunAppends(sts, limit, w, Hops(f, n - 1), [Hop(f)]);
      assert [Hop(f)] == [Hop(f)] + [];
      RunOne(sts, limit, before, Hop(f), []);
    }
  }

  function Refreshing(w: World, c: Chain): World
    requires |c.arns| >= 2
  {
    w.(flights := w.flights + [Flight(Origin(c, c.arns), |c.arns| - 2, c.keys)])
  }

  /** The refresh of `c` has come down to `low`, and warmed what lies above the base until there. */
  ghost predicate HasRefreshed(sts: AssumeRole, w: World, c: Chain, low: nat, after: World) {
    && 1 <= low < |c.arns| && Fold(sts, c.arns[low..], c.keys).Ok?
    && after.store == w.store && after.asks == w.asks
    && after.entries == Warmed(sts, w.entries, c, low)
    && after.flights ==
       w.flights + [Flight(Origin(c, c.arns), low - 1, Fold(sts, c.arns[low..], c.keys).value)]
  }

  lemma RefreshHops(sts: AssumeRole, limit: nat, w: World, c: Chain, low: nat)
    requires limit >= 1
    requires 1 <= low < |c.arns| && Fold(sts, c.arns[low..], c.keys).Ok?
    ensures HasRefreshed(sts, w, c, low, Run(sts, limit, Refreshing(w, c), Hops(|w.flights|, |c.arns| - 1 - low)))
  {
    assert c.arns[..|c.arns|] == c.arns;
    FlightWarms(sts, limit, Refreshing(w, c), |w.flights|, c, low);
  }

  /** The scheduled refresh is a run of this machine: starting a flight and letting it take its hops
      down to `low` writes just what `RefreshPrincipal` writes. */
  lemma RefreshIsAFlight(sts: AssumeRole, limit: nat, w: World, target: Arn, c: Chain, low: nat)
    requires limit >= 1 && ColdWalk(w.store, limit, target) == Ok(c)
    requires 1 <= low < |c.arns| && Fold(sts, c.arns[low..], c.keys).Ok?
    ensures HasRefreshed(sts, w, c, low,
                         Run(sts, limit, w, [StartRefresh(target)] + Hops(|w.flights|, |c.arns| - 1 - low)))
  {
    RefreshBegins(sts, limit, w, target, c, Hops(|w.flights|, |c.arns| - 1 - low));
    RefreshHops(sts, limit, w, c, low);
  }

  lemma RefreshBegins(sts: AssumeRole, limit: nat, w: World, target: Arn, c: Chain, rest: seq<Step>)
    requires limit >= 1 && ColdWalk(w.store, limit, target) == Ok(c)
    ensures Run(sts, limit, w, [StartRefresh(target)] + rest) == Run(sts, limit, Refreshing(w, c), rest)
  {
    RunOne(sts, limit, w, StartRefresh(target), rest);
  }
}
