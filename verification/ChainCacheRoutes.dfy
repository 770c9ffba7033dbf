/**
 What runs of the credential cache keep while nobody writes to the table: every recorded path is a true
 route, refreshes keep it short, and, as long as STS misses every session token that a search drops, every
 recorded chain is the principal's own.
 */
module ChainCacheRoutes {
  import opened Prelude
  import opened CredentialModel
  import opened ChainWalks
  import opened RoleSessions
  import opened CredentialCache
  import opened ChainCacheMachine

  predicate TableUntouched(steps: seq<Step>) {
    forall s :: s in steps ==> !s.WriteRow? && !s.RemoveRow?
  }

  predicate RefreshOnly(steps: seq<Step>) {
    forall s :: s in steps ==> !s.BeginAssume?
  }

  /** A whole trust path whose base offers keys. */
  ghost predicate KeyedRoute(store: Store, target: Arn, route: seq<Arn>) {
    TrueRoute(store, target, route) && BaseKeys(store[route[|route| - 1]]).Some?
  }

  ghost predicate StartsRoute(arns: seq<Arn>, route: seq<Arn>) {
    1 <= |arns| <= |route| && arns == route[..|arns|]
  }

  ghost predicate OriginOnRoute(store: Store, q: Arn, o: Origin) {
    KeyedRoute(store, q, o.route) && StartsRoute(o.chain.arns, o.route)
  }

  ghost predicate FlightOnRoute(store: Store, f: Flight) {
    1 <= f.next ==>
      && f.next + 2 <= |f.origin.chain.arns|
      && OriginOnRoute(store, f.origin.chain.arns[0], f.origin)
  }

  ghost predicate AskOnRoute(store: Store, limit: nat, a: Ask) {
    match a
    case Walking(target, visited, at) =>
      && |visited| < limit
      && (visited + [at])[0] == target
      && IsPath(store, visited + [at])
    case Searching(c, past, next) =>
      && 2 <= |c.arns| <= limit && next < |c.arns|
      && KeyedRoute(store, c.arns[0], past.route) && StartsRoute(c.arns, past.route)
      && StartsRoute(past.chain.arns, past.route)
    case Over => true
  }

  /** Every recorded path, finished or in flight, is a true route of the table. */
  ghost predicate RoutesTrue(limit: nat, w: World) {
    && (forall q :: q in w.entries ==> q in w.origin && OriginOnRoute(w.store, q, w.origin[q]))
    && (forall f :: 0 <= f < |w.flights| ==> FlightOnRoute(w.store, w.flights[f]))
    && (forall a :: 0 <= a < |w.asks| ==> AskOnRoute(w.store, limit, w.asks[a]))
  }

  /** A principal whose entry is live continues a path to the base. */
  lemma ContinuedOnRoute(limit: nat, w: World, arns: seq<Arn>, keys: AccessKeys)
    requires RoutesTrue(limit, w) && IsPath(w.store, arns) && arns[|arns| - 1] in w.entries
    ensures var past := Continued(w, arns, keys);
            && OriginOnRoute(w.store, arns[0], past)
            && StartsRoute(arns, past.route)
            && |past.chain.arns| >= |arns|
            && |past.route| == |arns| - 1 + |w.origin[arns[|arns| - 1]].route|
  {
    var last := arns[|arns| - 1];
    var o := w.origin[last];
    assert OriginOnRoute(w.store, last, o);
    PathJoin(w.store, arns, o.route);
    var head := arns[..|arns| - 1];
    assert (head + o.route)[..|head + o.chain.arns|] == head + o.chain.arns;
  }

  lemma WalkOnKeepsRoute(limit: nat, w: World, now: int, target: Arn, visited: seq<Arn>, at: Arn)
    requires RoutesTrue(limit, w) && AskOnRoute(w.store, limit, Walking(target, visited, at))
    ensures AskOnRoute(w.store, limit, WalkOn(w, limit, Live(w.entries, now), target, visited, at))
  {
    var arns := visited + [at];
    var live := Live(w.entries, now);
    if at != target && |arns| < limit && at in live {
      ContinuedOnRoute(limit, w, arns, live[at]);
    } else if Lookup(w.store, at).Ok? && NextHop(Lookup(w.store, at).value).Some? {
      PathExtends(w.store, arns, NextHop(Lookup(w.store, at).value).value);
    } else {
      assert arns == arns[..|arns|];
    }
  }

  lemma FromEntryOnRoute(limit: nat, w: World, c: Chain, past: Origin, i: nat, keys: AccessKeys)
    requires RoutesTrue(limit, w) && 1 <= i < |c.arns| && c.arns[i] in w.entries
    requires KeyedRoute(w.store, c.arns[0], past.route) && StartsRoute(c.arns, past.route)
    ensures FlightOnRoute(w.store, FromEntry(w, c, i, keys))
    ensures FromEntry(w, c, i, keys).origin.route == past.route
  {
    PathPrefix(w.store, past.route, i + 1);
    assert past.route[..i + 1] == c.arns[..i + 1];
    ContinuedOnRoute(limit, w, c.arns[..i + 1], keys);
    TrueRouteUnique(w.store, c.arns[0], FromEntry(w, c, i, keys).origin.route, past.route);
  }

  lemma WithAskAndFlightOnRoute(limit: nat, w: World, a: nat, ask: Ask, flights: seq<Flight>)
    requires RoutesTrue(limit, w) && a < |w.asks| && AskOnRoute(w.store, limit, ask)
    requires forall i :: 0 <= i < |flights| ==> FlightOnRoute(w.store, flights[i])
    ensures RoutesTrue(limit, w.(asks := w.asks[a := ask], flights := w.flights + flights))
  {}

  lemma AnsweredOnRoute(limit: nat, w: World, ask: Ask, now: int)
    requires RoutesTrue(limit, w) && AskOnRoute(w.store, limit, ask)
    ensures var (after, flights) := Answered(w, limit, Live(w.entries, now), ask);
            && AskOnRoute(w.store, limit, after)
            && forall i :: 0 <= i < |flights| ==> FlightOnRoute(w.store, flights[i])
  {
    var live := Live(w.entries, now);
    match ask
    case Walking(target, visited, at) => WalkOnKeepsRoute(limit, w, now, target, visited, at);
    case Searching(c, past, next) =>
      if next + 1 < |c.arns| && c.arns[next + 1] in live {
        FromEntryOnRoute(limit, w, c, past, next + 1, live[c.arns[next + 1]]);
      }
    case Over =>
  }

  lemma ReadKeepsRoutes(limit: nat, w: World, a: nat, now: int)
    requires RoutesTrue(limit, w) && a < |w.asks|
    ensures RoutesTrue(limit, ReadNext(w, limit, a, now))
  {
    assert AskOnRoute(w.store, limit, w.asks[a]);
    AnsweredOnRoute(limit, w, w.asks[a], now);
    var (ask, flights) := Answered(w, limit, Live(w.entries, now), w.asks[a]);
    WithAskAndFlightOnRoute(limit, w, a, ask, flights);
  }

  /** All a hop changes: one flight steps down, and one principal may get the flight's remaining chain. */
  ghost predicate HopChanges(w: World, f: nat, after: World)
    requires CanHop(w, f)
  {
    var Flight(o, next, creds) := w.flights[f];
    var q := o.chain.arns[next];
    && after.store == w.store && after.asks == w.asks
    && |after.flights| == |w.flights|
    && (forall g :: 0 <= g < |w.flights| && g != f ==> after.flights[g] == w.flights[g])
    && after.flights[f].origin == o && after.flights[f].next < next
    && ((after.entries == w.entries && after.origin == w.origin)
        || (&& q in after.entries && after.entries[q].sessionToken.Plain?
            && after.entries == w.entries[q := after.entries[q]]
            && after.origin == w.origin[q := Rest(o, next)]))
  }

  lemma HopDoes(sts: AssumeRole, w: World, f: nat)
    requires CanHop(w, f)
    ensures HopChanges(w, f, HopOver(sts, w, f))
  {}

  lemma RestOnRoute(store: Store, o: Origin, next: nat)
    requires 1 <= next && next + 2 <= |o.chain.arns| && OriginOnRoute(store, o.chain.arns[0], o)
    ensures OriginOnRoute(store, o.chain.arns[next], Rest(o, next))
  {
    assert o.route[next] == o.chain.arns[next];
    TrueRouteSuffix(store, o.chain.arns[0], o.route, next);
    assert o.route[next..][..|o.chain.arns| - next] == o.chain.arns[next..];
  }

  lemma HopKeepsRoutes(limit: nat, w: World, f: nat, after: World)
    requires RoutesTrue(limit, w) && CanHop(w, f) && HopChanges(w, f, after)
    ensures RoutesTrue(limit, after)
  {
    assert FlightOnRoute(w.store, w.flights[f]);
    RestOnRoute(w.store, w.flights[f].origin, w.flights[f].next);
    forall g | 0 <= g < |after.flights| ensures FlightOnRoute(w.store, after.flights[g]) {
      assert FlightOnRoute(w.store, w.flights[g]);
    }
  }

  lemma HopStepKeepsRoutes(sts: AssumeRole, limit: nat, w: World, f: nat)
    requires RoutesTrue(limit, w) && CanHop(w, f)
    ensures HopOver(sts, w, f).store == w.store && RoutesTrue(limit, HopOver(sts, w, f))
  {
    HopDoes(sts, w, f);
    HopKeepsRoutes(limit, w, f, HopOver(sts, w, f));
  }

  lemma RefreshKeepsRoutes(sts: AssumeRole, limit: nat, w: World, target: Arn, c: Chain)
    requires limit >= 1 && RoutesTrue(limit, w) && ColdWalk(w.store, limit, target) == Ok(c)
    ensures RoutesTrue(limit, Refreshing(w, c))
    ensures RoutesShort(limit, w) ==> RoutesShort(limit, Refreshing(w, c))
    ensures ChainsTrue(sts, limit, w) ==> ChainsTrue(sts, limit, Refreshing(w, c))
  {
    ColdWalkAccepts(w.store, limit, target, c);
    assert c.arns == c.arns[..|c.arns|];
    assert FlightOnRoute(w.store, Flight(Origin(c, c.arns), |c.arns| - 2, c.keys));
  }

  lemma StepKeepsRoutes(sts: AssumeRole, limit: nat, w: World, s: Step)
    requires limit >= 1 && RoutesTrue(limit, w) && !s.WriteRow? && !s.RemoveRow?
    ensures Next(sts, limit, w, s).store == w.store && RoutesTrue(limit, Next(sts, limit, w, s))
  {
    match s
    case StartRefresh(target) =>
      var r := ColdWalk(w.store, limit, target);
      if r.Ok? { RefreshKeepsRoutes(sts, limit, w, target, r.value); }
    case BeginAssume(target) => assert AskOnRoute(w.store, limit, Walking(target, [], target));
    case Read(a, now) => if a < |w.asks| { ReadKeepsRoutes(limit, w, a, now); }
    case Hop(f) => if CanHop(w, f) { HopStepKeepsRoutes(sts, limit, w, f); }
    case Crash(f) =>
    case Drop(arn) =>
  }

  /** As long as nobody writes to the table, every recorded path is a true route of it. */
  lemma {:induction false} RunKeepsRoutes(sts: AssumeRole, limit: nat, w: World, steps: seq<Step>)
    requires limit >= 1 && RoutesTrue(limit, w) && TableUntouched(steps)
    ensures Run(sts, limit, w, steps).store == w.store && RoutesTrue(limit, Run(sts, limit, w, steps))
    decreases |steps|
  {
    if |steps| > 0 {
      assert steps[0] in steps;
      StepKeepsRoutes(sts, limit, w, steps[0]);
      RunKeepsRoutes(sts, limit, Next(sts, limit, w, steps[0]), steps[1..]);
    }
  }

  /* ----- how far below a cached principal its base can be ----- */

  ghost predicate FlightShort(limit: nat, f: Flight) {
    1 <= f.next ==> |f.origin.route| <= limit
  }

  ghost predicate AskShort(limit: nat, a: Ask) {
    a.Searching? ==> |a.past.route| <= limit
  }

  /** Every cached principal has at most `limit - 1` principals left to its base, itself included. */
  ghost predicate RoutesShort(limit: nat, w: World) {
    && (forall q :: q in w.entries ==> q in w.origin && |w.origin[q].route| <= limit - 1)
    && (forall f :: 0 <= f < |w.flights| ==> FlightShort(limit, w.flights[f]))
    && (forall a :: 0 <= a < |w.asks| ==> AskShort(limit, w.asks[a]))
  }

  lemma WalkOnShort(limit: nat, w: World, now: int, target: Arn, visited: seq<Arn>, at: Arn)
    requires RoutesTrue(limit, w) && RoutesShort(limit, w) && limit <= 3
    requires AskOnRoute(w.store, limit, Walking(target, visited, at))
    ensures AskShort(limit, WalkOn(w, limit, Live(w.entries, now), target, visited, at))
  {
    var arns := visited + [at];
    var live := Live(w.entries, now);
    if at != target && |arns| < limit && at in live { ContinuedOnRoute(limit, w, arns, live[at]); }
  }

  lemma WithAskAndFlightShort(limit: nat, w: World, a: nat, ask: Ask, flights: seq<Flight>)
    requires RoutesShort(limit, w) && a < |w.asks| && AskShort(limit, ask)
    requires forall i :: 0 <= i < |flights| ==> FlightShort(limit, flights[i])
    ensures RoutesShort(limit, w.(asks := w.asks[a := ask], flights := w.flights + flights))
  {}

  lemma LookedShort(limit: nat, w: World, c: Chain, past: Origin, next: nat, now: int)
    requires RoutesTrue(limit, w) && AskOnRoute(w.store, limit, Searching(c, past, next)) && |past.route| <= limit
    ensures var (after, flights) := Looked(w, Live(w.entries, now), c, past, next);
            AskShort(limit, after) && forall i :: 0 <= i < |flights| ==> FlightShort(limit, flights[i])
  {
    if next + 1 < |c.arns| && c.arns[next + 1] in Live(w.entries, now) {
      FromEntryOnRoute(limit, w, c, past, next + 1, Live(w.entries, now)[c.arns[next + 1]]);
    }
  }

  lemma AnsweredShort(limit: nat, w: World, ask: Ask, now: int)
    requires RoutesTrue(limit, w) && RoutesShort(limit, w) && limit <= 3
    requires AskOnRoute(w.store, limit, ask) && AskShort(limit, ask)
    ensures var (after, flights) := Answered(w, limit, Live(w.entries, now), ask);
            AskShort(limit, after) && forall i :: 0 <= i < |flights| ==> FlightShort(limit, flights[i])
  {
    match ask
    case Walking(target, visited, at) => WalkOnShort(limit, w, now, target, visited, at);
    case Searching(c, past, next) => LookedShort(limit, w, c, past, next, now);
    case Over =>
  }

  lemma ReadKeepsShort(limit: nat, w: World, a: nat, now: int)
    requires RoutesTrue(limit, w) && RoutesShort(limit, w) && a < |w.asks| && limit <= 3
    ensures RoutesShort(limit, ReadNext(w, limit, a, now))
  {
    assert AskOnRoute(w.store, limit, w.asks[a]) && AskShort(limit, w.asks[a]);
    AnsweredShort(limit, w, w.asks[a], now);
    var (ask, flights) := Answered(w, limit, Live(w.entries, now), w.asks[a]);
    WithAskAndFlightShort(limit, w, a, ask, flights);
  }

  lemma HopKeepsShort(limit: nat, w: World, f: nat, after: World)
    requires RoutesTrue(limit, w) && RoutesShort(limit, w) && CanHop(w, f) && HopChanges(w, f, after)
    ensures RoutesShort(limit, after)
  {
    assert FlightOnRoute(w.store, w.flights[f]) && FlightShort(limit, w.flights[f]);
  }

  lemma StepKeepsShort(sts: AssumeRole, limit: nat, w: World, s: Step)
    requires limit >= 1 && RoutesTrue(limit, w) && RoutesShort(limit, w) && !s.WriteRow? && !s.RemoveRow?
    requires limit <= 3 || (!s.BeginAssume? && w.asks == [])
    ensures RoutesShort(limit, Next(sts, limit, w, s))
    ensures w.asks == [] && !s.BeginAssume? ==> Next(sts, limit, w, s).asks == []
  {
    match s
    case StartRefresh(target) =>
      var r := ColdWalk(w.store, limit, target);
      if r.Ok? { RefreshKeepsRoutes(sts, limit, w, target, r.value); }
    case BeginAssume(target) =>
    case Read(a, now) => if a < |w.asks| { ReadKeepsShort(limit, w, a, now); }
    case Hop(f) =>
      if CanHop(w, f) {
        HopDoes(sts, w, f);
        HopKeepsShort(limit, w, f, HopOver(sts, w, f));
      }
    case Crash(f) =>
    case Drop(arn) =>
  }

  /** Refreshes keep every cached principal within `limit - 1` principals of its base; up to a limit of
      three interactive assumptions do so too. */
  lemma {:induction false} RunKeepsShort(sts: AssumeRole, limit: nat, w: World, steps: seq<Step>)
    requires limit >= 1 && RoutesTrue(limit, w) && RoutesShort(limit, w) && TableUntouched(steps)
    requires limit <= 3 || (RefreshOnly(steps) && w.asks == [])
    ensures RoutesShort(limit, Run(sts, limit, w, steps))
    decreases |steps|
  {
    if |steps| > 0 {
      assert steps[0] in steps;
      StepKeepsRoutes(sts, limit, w, steps[0]);
      StepKeepsShort(sts, limit, w, steps[0]);
      RunKeepsShort(sts, limit, Next(sts, limit, w, steps[0]), steps[1..]);
    }
  }

  /** The rest of a served chain that a cached hop cut short. */
  lemma CutContinues(w: World, limit: nat, target: Arn, now: int, c: Chain) returns (arns: seq<Arn>)
    requires limit >= 1 && RoutesTrue(limit, w)
    requires CachedWalk(w.store, Live(w.entries, now), limit, target) == Ok(c)
    ensures KeyedRoute(w.store, target, arns) && StartsRoute(c.arns, arns)
    ensures RoutesShort(limit, w) ==> |arns| <= Max(limit, 2 * limit - 3)
  {
    CachedWalkServes(w.store, Live(w.entries, now), limit, target, c);
    if TrueChain(w.store, target, c) {
      arns := c.arns;
      assert c.arns == arns[..|c.arns|];
    } else {
      ContinuedOnRoute(limit, w, c.arns, c.keys);
      arns := Continued(w, c.arns, c.keys).route;
    }
  }

  /** After any run that leaves the table alone, a chain the cached walk serves begins a true route of
      its target. Refreshes alone keep that route within `max(L, 2L - 3)`; at a limit of three or less
      interactive assumptions keep it within the limit as well. */
  lemma ServedRouteBound(sts: AssumeRole, limit: nat, store: Store, steps: seq<Step>, target: Arn, now: int, c: Chain)
    requires limit >= 1 && TableUntouched(steps)
    requires CachedWalk(store, Live(Run(sts, limit, Start(store), steps).entries, now), limit, target) == Ok(c)
    ensures exists arns ::
              && TrueRoute(store, target, arns)
              && StartsRoute(c.arns, arns)
              && (RefreshOnly(steps) || limit <= 3 ==> |arns| <= Max(limit, 2 * limit - 3))
  {
    RunKeepsRoutes(sts, limit, Start(store), steps);
    if RefreshOnly(steps) || limit <= 3 { RunKeepsShort(sts, limit, Start(store), steps); }
    var arns := CutContinues(Run(sts, limit, Start(store), steps), limit, target, now, c);
  }

  /** The two walks must agree, and for a limit of up to three they do, whatever refreshes, interactive
      assumptions and expiries came before: the cached walk accepts exactly what the cold walk accepts. */
  lemma WalksAgreeUpToThree(sts: AssumeRole, limit: nat, store: Store, steps: seq<Step>, target: Arn, now: int)
    requires 1 <= limit <= 3 && TableUntouched(steps)
    ensures CachedWalk(store, Live(Run(sts, limit, Start(store), steps).entries, now), limit, target).Ok?
        <==> ColdWalk(store, limit, target).Ok?
  {
    RunKeepsRoutes(sts, limit, Start(store), steps);
    RunKeepsShort(sts, limit, Start(store), steps);
    var w := Run(sts, limit, Start(store), steps);
    var live := Live(w.entries, now);
    var r := CachedWalk(store, live, limit, target);
    if r.Ok? {
      var arns := CutContinues(w, limit, target, now, r.value);
      ColdWalkAccepts(store, limit, target, Chain(arns, BaseKeys(store[arns[|arns| - 1]]).value));
    }
    if ColdWalk(store, limit, target).Ok? {
      WarmCacheOnlyShortens(store, live, limit, target);
    }
  }

  /* ----- whether the credentials are the true chain's ----- */

  /** Credentials as the search hands them on when it finds no entry. */
  function Bare(keys: AccessKeys): AccessKeys {
    keys.(sessionToken := None)
  }

  /** STS refuses these credentials whatever the role. */
  ghost predicate Dead(sts: AssumeRole, keys: AccessKeys) {
    forall role :: sts(role, keys).Err?
  }

  /** The step ends a search without an entry, over a chain that has an inner hop to cache and whose keys
      carry a token, and STS still answers the keys without it. */
  ghost predicate DropsToken(sts: AssumeRole, w: World, s: Step) {
    && s.Read? && s.ask < |w.asks| && w.asks[s.ask].Searching?
    && var Searching(c, past, next) := w.asks[s.ask];
       next + 1 >= |c.arns| >= 3 && c.keys.sessionToken.Some? && !Dead(sts, Bare(c.keys))
  }

  ghost predicate TokensKept(sts: AssumeRole, limit: nat, w: World, steps: seq<Step>)
    requires limit >= 1
    decreases |steps|
  {
    || |steps| == 0
    || (!DropsToken(sts, w, steps[0]) && TokensKept(sts, limit, Next(sts, limit, w, steps[0]), steps[1..]))
  }

  /** A flight with an inner hop ahead of it is on a true chain, or will get nothing from STS. */
  ghost predicate FlightTrue(sts: AssumeRole, store: Store, f: Flight) {
    1 <= f.next ==>
      || Dead(sts, f.creds)
      || (|f.origin.chain.arns| > 0 && TrueChain(store, f.origin.chain.arns[0], f.origin.chain))
  }

  /** A served chain is the whole true chain, or was cut below the limit by an entry, whose keys have a token. */
  ghost predicate AskTrue(store: Store, limit: nat, a: Ask) {
    a.Searching? ==>
      && |a.chain.arns| > 0 && TrueChain(store, a.chain.arns[0], a.past.chain)
      && (a.chain == a.past.chain || (|a.chain.arns| < limit && a.chain.keys.sessionToken.Some?))
  }

  /** Every recorded chain is its principal's true chain, but for flights that will get nothing. */
  ghost predicate ChainsTrue(sts: AssumeRole, limit: nat, w: World) {
    && (forall q :: q in w.entries ==>
          q in w.origin && TrueChain(w.store, q, w.origin[q].chain) && w.entries[q].sessionToken.Plain?)
    && (forall f :: 0 <= f < |w.flights| ==> FlightTrue(sts, w.store, w.flights[f]))
    && (forall a :: 0 <= a < |w.asks| ==> AskTrue(w.store, limit, w.asks[a]))
  }

  lemma ContinuedTrue(sts: AssumeRole, limit: nat, w: World, arns: seq<Arn>, keys: AccessKeys)
    requires ChainsTrue(sts, limit, w) && IsPath(w.store, arns) && arns[|arns| - 1] in w.entries
    ensures TrueChain(w.store, arns[0], Continued(w, arns, keys).chain)
  {
    PathJoin(w.store, arns, w.origin[arns[|arns| - 1]].chain.arns);
  }

  lemma WalkOnTrue(sts: AssumeRole, limit: nat, w: World, now: int, target: Arn, visited: seq<Arn>, at: Arn)
    requires ChainsTrue(sts, limit, w) && AskOnRoute(w.store, limit, Walking(target, visited, at))
    ensures AskTrue(w.store, limit, WalkOn(w, limit, Live(w.entries, now), target, visited, at))
  {
    var arns := visited + [at];
    if at in Live(w.entries, now) { ContinuedTrue(sts, limit, w, arns, Live(w.entries, now)[at]); }
  }

  lemma FromEntryTrue(sts: AssumeRole, limit: nat, w: World, c: Chain, past: Origin, i: nat, keys: AccessKeys)
    requires ChainsTrue(sts, limit, w) && 1 <= i < |c.arns| && c.arns[i] in w.entries
    requires KeyedRoute(w.store, c.arns[0], past.route) && StartsRoute(c.arns, past.route)
    ensures FlightTrue(sts, w.store, FromEntry(w, c, i, keys))
  {
    PathPrefix(w.store, past.route, i + 1);
    assert past.route[..i + 1] == c.arns[..i + 1];
    ContinuedTrue(sts, limit, w, c.arns[..i + 1], keys);
  }

  lemma WithAskAndFlightTrue(sts: AssumeRole, limit: nat, w: World, a: nat, ask: Ask, flights: seq<Flight>)
    requires ChainsTrue(sts, limit, w) && a < |w.asks| && AskTrue(w.store, limit, ask)
    requires forall i :: 0 <= i < |flights| ==> FlightTrue(sts, w.store, flights[i])
    ensures ChainsTrue(sts, limit, w.(asks := w.asks[a := ask], flights := w.flights + flights))
  {}

  lemma FromChainTrue(sts: AssumeRole, limit: nat, store: Store, c: Chain, past: Origin)
    requires AskTrue(store, limit, Searching(c, past, 0))
    requires |c.arns| >= 3 && c.keys.sessionToken.Some? ==> Dead(sts, Bare(c.keys))
    ensures FlightTrue(sts, store, FromChain(c, past))
  {
    assert c.keys.sessionToken.None? ==> c.keys.(sessionToken := None) == c.keys;
  }

  lemma AnsweredTrue(sts: AssumeRole, limit: nat, w: World, ask: Ask, now: int)
    requires ChainsTrue(sts, limit, w) && AskOnRoute(w.store, limit, ask) && AskTrue(w.store, limit, ask)
    requires ask.Searching? && ask.next + 1 >= |ask.chain.arns| >= 3 && ask.chain.keys.sessionToken.Some?
             ==> Dead(sts, Bare(ask.chain.keys))
    ensures var (after, flights) := Answered(w, limit, Live(w.entries, now), ask);
            AskTrue(w.store, limit, after) && forall i :: 0 <= i < |flights| ==> FlightTrue(sts, w.store, flights[i])
  {
    var live := Live(w.entries, now);
    match ask
    case Walking(target, visited, at) => WalkOnTrue(sts, limit, w, now, target, visited, at);
    case Searching(c, past, next) =>
      if next + 1 >= |c.arns| {
        FromChainTrue(sts, limit, w.store, c, past);
      } else if c.arns[next + 1] in live {
        FromEntryTrue(sts, limit, w, c, past, next + 1, live[c.arns[next + 1]]);
      }
    case Over =>
  }

  lemma ReadKeepsTrue(sts: AssumeRole, limit: nat, w: World, a: nat, now: int)
    requires RoutesTrue(limit, w) && ChainsTrue(sts, limit, w) && a < |w.asks| && !DropsToken(sts, w, Read(a, now))
    ensures ChainsTrue(sts, limit, ReadNext(w, limit, a, now))
  {
    assert AskOnRoute(w.store, limit, w.asks[a]) && AskTrue(w.store, limit, w.asks[a]);
    AnsweredTrue(sts, limit, w, w.asks[a], now);
    var (ask, flights) := Answered(w, limit, Live(w.entries, now), w.asks[a]);
    WithAskAndFlightTrue(sts, limit, w, a, ask, flights);
  }

  lemma HopKeepsTrue(sts: AssumeRole, limit: nat, w: World, f: nat, after: World)
    requires RoutesTrue(limit, w) && ChainsTrue(sts, limit, w) && CanHop(w, f) && HopChanges(w, f, after)
    requires TrueChain(w.store, w.flights[f].origin.chain.arns[0], w.flights[f].origin.chain)
    ensures ChainsTrue(sts, limit, after)
  {
    assert FlightOnRoute(w.store, w.flights[f]);
    RestIsTrue(w.store, w.flights[f].origin, w.flights[f].next);
    forall g | 0 <= g < |after.flights| ensures FlightTrue(sts, w.store, after.flights[g]) {
      assert FlightTrue(sts, w.store, w.flights[g]);
    }
  }

  lemma RestIsTrue(store: Store, o: Origin, next: nat)
    requires next + 2 <= |o.chain.arns| && TrueChain(store, o.chain.arns[0], o.chain)
    ensures TrueChain(store, o.chain.arns[next], Rest(o, next).chain)
  {
    TrueRouteSuffix(store, o.chain.arns[0], o.chain.arns, next);
  }

  lemma HopStepKeepsTrue(sts: AssumeRole, limit: nat, w: World, f: nat)
    requires RoutesTrue(limit, w) && ChainsTrue(sts, limit, w) && CanHop(w, f)
    ensures ChainsTrue(sts, limit, HopOver(sts, w, f))
  {
    assert FlightTrue(sts, w.store, w.flights[f]);
    if Dead(sts, w.flights[f].creds) {
      assert HopOver(sts, w, f) == w.(flights := w.flights[f := w.flights[f].(next := 0)]);
    } else {
      HopDoes(sts, w, f);
      HopKeepsTrue(sts, limit, w, f, HopOver(sts, w, f));
    }
  }

  lemma StepKeepsTrue(sts: AssumeRole, limit: nat, w: World, s: Step)
    requires limit >= 1 && RoutesTrue(limit, w) && ChainsTrue(sts, limit, w)
    requires !s.WriteRow? && !s.RemoveRow? && !DropsToken(sts, w, s)
    ensures ChainsTrue(sts, limit, Next(sts, limit, w, s))
  {
    match s
    case StartRefresh(target) =>
      var r := ColdWalk(w.store, limit, target);
      if r.Ok? { RefreshKeepsRoutes(sts, limit, w, target, r.value); }
    case BeginAssume(target) =>
    case Read(a, now) => if a < |w.asks| { ReadKeepsTrue(sts, limit, w, a, now); }
    case Hop(f) => if CanHop(w, f) { HopStepKeepsTrue(sts, limit, w, f); }
    case Crash(f) =>
    case Drop(arn) =>
  }

  /** Until a search drops a token that STS does not miss, every entry was folded along its principal's true
      chain. */
  lemma {:induction false} RunKeepsTrue(sts: AssumeRole, limit: nat, w: World, steps: seq<Step>)
    requires limit >= 1 && RoutesTrue(limit, w) && ChainsTrue(sts, limit, w)
    requires TableUntouched(steps) && TokensKept(sts, limit, w, steps)
    ensures ChainsTrue(sts, limit, Run(sts, limit, w, steps))
    decreases |steps|
  {
    if |steps| > 0 {
      assert steps[0] in steps;
      StepKeepsRoutes(sts, limit, w, steps[0]);
      StepKeepsTrue(sts, limit, w, steps[0]);
      RunKeepsTrue(sts, limit, Next(sts, limit, w, steps[0]), steps[1..]);
    }
  }

  /** The scheduled refresh never drops a token. */
  lemma {:induction false} RefreshKeepsTokens(sts: AssumeRole, limit: nat, w: World, steps: seq<Step>)
    requires limit >= 1 && RefreshOnly(steps) && w.asks == []
    ensures TokensKept(sts, limit, w, steps)
    decreases |steps|
  {
    if |steps| > 0 {
      assert steps[0] in steps;
      RefreshKeepsTokens(sts, limit, Next(sts, limit, w, steps[0]), steps[1..]);
    }
  }

  /** No base row with keys carries a session token: bases are long-term users. */
  ghost predicate BasesAreLongTerm(store: Store) {
    forall a :: IsBase(store, a) && BaseKeys(store[a]).Some? ==> BaseKeys(store[a]).value.sessionToken.None?
  }

  lemma NoTokenToDrop(sts: AssumeRole, limit: nat, w: World, s: Step)
    requires limit <= 3 && ChainsTrue(sts, limit, w) && BasesAreLongTerm(w.store)
    ensures !DropsToken(sts, w, s)
  {
    if s.Read? && s.ask < |w.asks| { assert AskTrue(w.store, limit, w.asks[s.ask]); }
  }

  /** Nor, over long-term bases, does any run with a limit of up to three: a chain that a cached hop cuts
      short is then too short to have an inner hop. */
  lemma {:induction false} LongTermBasesKeepTokens(sts: AssumeRole, limit: nat, w: World, steps: seq<Step>)
    requires 1 <= limit <= 3 && RoutesTrue(limit, w) && ChainsTrue(sts, limit, w)
    requires TableUntouched(steps) && BasesAreLongTerm(w.store)
    ensures TokensKept(sts, limit, w, steps)
    decreases |steps|
  {
    if |steps| > 0 {
      var s := steps[0];
      assert s in steps;
      NoTokenToDrop(sts, limit, w, s);
      StepKeepsRoutes(sts, limit, w, s);
      StepKeepsTrue(sts, limit, w, s);
      LongTermBasesKeepTokens(sts, limit, Next(sts, limit, w, s), steps[1..]);
    }
  }

  /* ----- an STS that misses the token ----- */

  /** STS handed these credentials out. */
  ghost predicate Issued(sts: AssumeRole, keys: AccessKeys) {
    exists role, caller :: sts(role, caller).Ok? && sts(role, caller).value.keys == keys
  }

  /** A base row holds these credentials. */
  ghost predicate Held(store: Store, keys: AccessKeys) {
    exists a :: IsBase(store, a) && BaseKeys(store[a]) == Some(keys)
  }

  /** Session credentials that STS handed out, or that a base holds, are refused without their token. */
  ghost predicate RefusesBare(sts: AssumeRole, store: Store) {
    forall keys: AccessKeys ::
      keys.sessionToken.Some? && (Issued(sts, keys) || Held(store, keys)) ==> Dead(sts, Bare(keys))
  }

  ghost predicate EntryIssued(sts: AssumeRole, e: Entry) {
    forall now :: ReadEntry(e, now).Some? ==> Issued(sts, ReadEntry(e, now).value)
  }

  ghost predicate AskIssued(sts: AssumeRole, a: Ask) {
    a.Searching? ==> a.chain == a.past.chain || Issued(sts, a.chain.keys)
  }

  /** Whatever is cached, or was served from the cache, STS handed out. */
  ghost predicate CacheIssued(sts: AssumeRole, w: World) {
    && (forall q :: q in w.entries ==> EntryIssued(sts, w.entries[q]))
    && (forall a :: 0 <= a < |w.asks| ==> AskIssued(sts, w.asks[a]))
  }

  lemma AnsweredIssued(sts: AssumeRole, limit: nat, w: World, ask: Ask, now: int)
    requires CacheIssued(sts, w) && AskIssued(sts, ask)
    ensures AskIssued(sts, Answered(w, limit, Live(w.entries, now), ask).0)
  {
    if ask.Walking? && ask.at in Live(w.entries, now) { assert EntryIssued(sts, w.entries[ask.at]); }
  }

  lemma HopKeepsIssued(sts: AssumeRole, w: World, f: nat)
    requires CacheIssued(sts, w) && CanHop(w, f)
    ensures CacheIssued(sts, HopOver(sts, w, f))
  {
    var q := w.flights[f].origin.chain.arns[w.flights[f].next];
    var r := sts(q, w.flights[f].creds);
    if Cacheable(r) {
      assert Issued(sts, r.value.keys);
      assert EntryIssued(sts, HopOver(sts, w, f).entries[q]);
    }
  }

  lemma StepKeepsIssued(sts: AssumeRole, limit: nat, w: World, s: Step)
    requires limit >= 1 && CacheIssued(sts, w)
    ensures CacheIssued(sts, Next(sts, limit, w, s))
  {
    match s
    case Read(a, now) =>
      if a < |w.asks| {
        assert AskIssued(sts, w.asks[a]);
        AnsweredIssued(sts, limit, w, w.asks[a], now);
      }
    case Hop(f) => if CanHop(w, f) { HopKeepsIssued(sts, w, f); }
    case _ =>
  }

  lemma ServedKeysAreKnown(sts: AssumeRole, limit: nat, w: World, a: nat)
    requires ChainsTrue(sts, limit, w) && CacheIssued(sts, w) && a < |w.asks| && w.asks[a].Searching?
    ensures Issued(sts, w.asks[a].chain.keys) || Held(w.store, w.asks[a].chain.keys)
  {
    var c := w.asks[a].chain;
    assert AskTrue(w.store, limit, w.asks[a]) && AskIssued(sts, w.asks[a]);
    if !Issued(sts, c.keys) {
      assert IsBase(w.store, c.arns[|c.arns| - 1]);
    }
  }

  /** Where STS refuses session credentials without their token, no search passes on any that it would
      answer: over every table, at every limit, whatever dies between a walk and its search. */
  lemma {:induction false} RefusingStsKeepsTokens(sts: AssumeRole, limit: nat, w: World, steps: seq<Step>)
    requires limit >= 1 && RoutesTrue(limit, w) && ChainsTrue(sts, limit, w) && CacheIssued(sts, w)
    requires TableUntouched(steps) && RefusesBare(sts, w.store)
    ensures TokensKept(sts, limit, w, steps)
    decreases |steps|
  {
    if |steps| > 0 {
      var s := steps[0];
      assert s in steps;
      if s.Read? && s.ask < |w.asks| && w.asks[s.ask].Searching? { ServedKeysAreKnown(sts, limit, w, s.ask); }
      StepKeepsRoutes(sts, limit, w, s);
      StepKeepsTrue(sts, limit, w, s);
      StepKeepsIssued(sts, limit, w, s);
      RefusingStsKeepsTokens(sts, limit, Next(sts, limit, w, s), steps[1..]);
    }
  }

  /** What the cached walk serves resolves to the outcome of the target's whole true chain, which is the
      chain of the cold walk whenever the cold walk accepts. */
  ghost predicate LeafIsCold(sts: AssumeRole, limit: nat, store: Store, target: Arn, c: Chain)
    requires limit >= 1
  {
    exists t ::
      && TrueChain(store, target, t)
      && Fold(sts, c.arns, c.keys) == Fold(sts, t.arns, t.keys)
      && (|t.arns| <= limit <==> ColdWalk(store, limit, target) == Ok(t))
  }

  /** Cached and cold resolution end in the same credentials after any run that leaves the table alone and
      drops no token that STS does not miss. */
  lemma KeptTokensKeepLeaves(sts: AssumeRole, limit: nat, store: Store, steps: seq<Step>, target: Arn, now: int,
                             c: Chain)
    requires limit >= 1 && TableUntouched(steps) && TokensKept(sts, limit, Start(store), steps)
    requires CachedWalk(store, Live(Run(sts, limit, Start(store), steps).entries, now), limit, target) == Ok(c)
    ensures LeafIsCold(sts, limit, store, target, c)
  {
    RunKeepsCoherent(sts, limit, Start(store), steps);
    RunKeepsRoutes(sts, limit, Start(store), steps);
    RunKeepsTrue(sts, limit, Start(store), steps);
    var w := Run(sts, limit, Start(store), steps);
    CachedWalkServes(store, Live(w.entries, now), limit, target, c);
    ServedChainMeansTrueChain(sts, limit, w, target, now, c);
  }

  /** Cached and cold resolution end in the same credentials, or the same refusal: at every limit, after
      every run of refreshes, interactive requests, expiries and invalidations, hops that die between a walk
      and its search included, as long as STS refuses session credentials without their token. */
  lemma CachedLeafIsColdLeaf(sts: AssumeRole, limit: nat, store: Store, steps: seq<Step>, target: Arn, now: int,
                             c: Chain)
    requires limit >= 1 && TableUntouched(steps) && RefusesBare(sts, store)
    requires CachedWalk(store, Live(Run(sts, limit, Start(store), steps).entries, now), limit, target) == Ok(c)
    ensures LeafIsCold(sts, limit, store, target, c)
  {
    RefusingStsKeepsTokens(sts, limit, Start(store), steps);
    KeptTokensKeepLeaves(sts, limit, store, steps, target, now, c);
  }

  /* ----- the interactive path ----- */

  /** The ask's search ends at this read. */
  predicate SearchEnds(w: World, a: nat, now: int) {
    && a < |w.asks| && w.asks[a].Searching?
    && var Searching(c, past, next) := w.asks[a];
       next + 1 >= |c.arns| || c.arns[next + 1] in Live(w.entries, now)
  }

  /** It ends because an entry is found. */
  predicate EntryFound(w: World, a: nat) {
    && a < |w.asks| && w.asks[a].Searching?
    && w.asks[a].next + 1 < |w.asks[a].chain.arns|
  }

  /** The flight holds what walking `t` from its base down to just above the flight's next hop yields. */
  ghost predicate StandsOn(sts: AssumeRole, t: Chain, f: Flight) {
    && f.next + 2 <= |t.arns|
    && Fold(sts, t.arns[f.next + 1..], t.keys) == Ok(f.creds)
  }

  /** The flight that the ending search starts. */
  function Started(w: World, a: nat, now: int): Flight
    requires SearchEnds(w, a, now)
  {
    var Searching(c, past, next) := w.asks[a];
    if EntryFound(w, a) then FromEntry(w, c, next + 1, Live(w.entries, now)[c.arns[next + 1]]) else FromChain(c, past)
  }

  lemma SearchStarts(sts: AssumeRole, limit: nat, w: World, a: nat, now: int)
    requires limit >= 1 && SearchEnds(w, a, now)
    ensures Next(sts, limit, w, Read(a, now))
            == w.(asks := w.asks[a := Over], flights := w.flights + [Started(w, a, now)])
  {}

  /** Flight `f`, started over the served chain `c` of a target whose true chain is `t`, holds the true
      chain's credentials just when `right` is so. Then walking on from them ends in the cold leaf. */
  ghost predicate StartIs(sts: AssumeRole, store: Store, c: Chain, t: Chain, f: Flight, right: bool) {
    && |c.arns| >= 2 && f.next + 2 <= |c.arns|
    && TrueChain(store, c.arns[0], t)
    && (StandsOn(sts, t, f) <==> right)
    && (right ==> Fold(sts, c.arns[..f.next + 2], f.creds) == Fold(sts, t.arns, t.keys))
  }

  /** The search found a live entry, or its chain reaches its base and the base's keys carry no token. A hop
      that cut the chain and died before the search is neither. */
  ghost predicate RightStart(store: Store, w: World, a: nat)
    requires a < |w.asks| && w.asks[a].Searching?
  {
    var c := w.asks[a].chain;
    EntryFound(w, a) || (|c.arns| > 0 && TrueChain(store, c.arns[0], c) && c.keys.sessionToken.None?)
  }

  /** The search of an interactive request starts a flight that holds its true chain's credentials, and so
      ends in the cold leaf, exactly from the right start; from any other start it is refused, so an
      interactive request never ends in credentials other than the cold leaf's. */
  lemma InteractiveStartsRight(sts: AssumeRole, limit: nat, store: Store, steps: seq<Step>, w: World, a: nat, now: int)
    requires limit >= 1 && TableUntouched(steps) && RefusesBare(sts, store)
    requires w == Run(sts, limit, Start(store), steps) && SearchEnds(w, a, now)
    ensures var c, f := w.asks[a].chain, Started(w, a, now);
            && Next(sts, limit, w, Read(a, now)) == w.(asks := w.asks[a := Over], flights := w.flights + [f])
            && StartIs(sts, store, c, w.asks[a].past.chain, f, RightStart(store, w, a))
            && (!RightStart(store, w, a) ==> Fold(sts, c.arns[..f.next + 2], f.creds).Err?)
  {
    RefusingStsKeepsTokens(sts, limit, Start(store), steps);
    RunKeepsCoherent(sts, limit, Start(store), steps);
    RunKeepsRoutes(sts, limit, Start(store), steps);
    RunKeepsTrue(sts, limit, Start(store), steps);
    RunKeepsIssued(sts, limit, Start(store), steps);
    SearchStarts(sts, limit, w, a, now);
    SearchStartsRight(sts, limit, w, a, now);
    if !RightStart(store, w, a) { WrongStartIsRefused(sts, limit, w, a, now); }
  }

  lemma {:induction false} RunKeepsIssued(sts: AssumeRole, limit: nat, w: World, steps: seq<Step>)
    requires limit >= 1 && CacheIssued(sts, w)
    ensures CacheIssued(sts, Run(sts, limit, w, steps))
    decreases |steps|
  {
    if |steps| > 0 {
      StepKeepsIssued(sts, limit, w, steps[0]);
      RunKeepsIssued(sts, limit, Next(sts, limit, w, steps[0]), steps[1..]);
    }
  }

  lemma WrongStartIsRefused(sts: AssumeRole, limit: nat, w: World, a: nat, now: int)
    requires RoutesTrue(limit, w) && ChainsTrue(sts, limit, w) && CacheIssued(sts, w) && RefusesBare(sts, w.store)
    requires SearchEnds(w, a, now) && !RightStart(w.store, w, a)
    ensures var c, f := w.asks[a].chain, Started(w, a, now);
            f.next + 2 <= |c.arns| && Fold(sts, c.arns[..f.next + 2], f.creds).Err?
  {
    var c := w.asks[a].chain;
    assert AskOnRoute(w.store, limit, w.asks[a]) && AskTrue(w.store, limit, w.asks[a]);
    ServedKeysAreKnown(sts, limit, w, a);
    assert c.arns[..|c.arns|] == c.arns;
    DeadGetsNothing(sts, c.arns, Bare(c.keys));
  }

  lemma {:induction false} DeadGetsNothing(sts: AssumeRole, arns: seq<Arn>, keys: AccessKeys)
    requires |arns| >= 2 && Dead(sts, keys)
    ensures Fold(sts, arns, keys).Err?
  {
    if |arns| > 2 { DeadGetsNothing(sts, arns[1..], keys); }
  }

  lemma SearchStartsRight(sts: AssumeRole, limit: nat, w: World, a: nat, now: int)
    requires Coherent(sts, w) && RoutesTrue(limit, w) && ChainsTrue(sts, limit, w) && SearchEnds(w, a, now)
    ensures StartIs(sts, w.store, w.asks[a].chain, w.asks[a].past.chain, Started(w, a, now), RightStart(w.store, w, a))
  {
    AskIsSound(sts, limit, w, a);
    if EntryFound(w, a) {
      LiveEntryIsTrue(sts, limit, w, now, w.asks[a].chain.arns[w.asks[a].next + 1]);
      FoundStandsOn(sts, limit, w, a, now);
    }
    AskStartsRight(sts, w.store, limit, w.asks[a], Started(w, a, now), EntryFound(w, a));
  }

  /** The entry answers with what its principal's true chain folds to. */
  ghost predicate LiveIsTrue(sts: AssumeRole, w: World, now: int, q: Arn) {
    && q in Live(w.entries, now) && q in w.origin
    && TrueChain(w.store, q, w.origin[q].chain)
    && Fold(sts, w.origin[q].chain.arns, w.origin[q].chain.keys) == Ok(Live(w.entries, now)[q])
  }

  lemma LiveEntryIsTrue(sts: AssumeRole, limit: nat, w: World, now: int, q: Arn)
    requires Coherent(sts, w) && ChainsTrue(sts, limit, w) && q in Live(w.entries, now)
    ensures LiveIsTrue(sts, w, now, q)
  {
    assert EntryFolds(sts, q, w.entries[q], w.origin[q].chain);
  }

  lemma FoundStandsOn(sts: AssumeRole, limit: nat, w: World, a: nat, now: int)
    requires SearchEnds(w, a, now) && EntryFound(w, a)
    requires AskOnRoute(w.store, limit, w.asks[a]) && AskTrue(w.store, limit, w.asks[a])
    requires LiveIsTrue(sts, w, now, w.asks[a].chain.arns[w.asks[a].next + 1])
    ensures StandsOn(sts, w.asks[a].past.chain, Started(w, a, now))
    ensures Started(w, a, now).next + 2 <= |w.asks[a].chain.arns|
  {
    var Searching(c, past, next) := w.asks[a];
    EntryStandsOn(sts, w, c, past, next + 1, Live(w.entries, now)[c.arns[next + 1]]);
  }

  lemma AskIsSound(sts: AssumeRole, limit: nat, w: World, a: nat)
    requires Coherent(sts, w) && RoutesTrue(limit, w) && ChainsTrue(sts, limit, w) && a < |w.asks|
    ensures AskFolds(sts, w.asks[a]) && AskOnRoute(w.store, limit, w.asks[a]) && AskTrue(w.store, limit, w.asks[a])
  {}

  lemma AskStartsRight(sts: AssumeRole, store: Store, limit: nat, ask: Ask, f: Flight, found: bool)
    requires ask.Searching? && AskFolds(sts, ask) && AskOnRoute(store, limit, ask) && AskTrue(store, limit, ask)
    requires if found then StandsOn(sts, ask.past.chain, f) && f.next + 2 <= |ask.chain.arns|
             else f == FromChain(ask.chain, ask.past)
    ensures StartIs(sts, store, ask.chain, ask.past.chain, f,
                    found || (TrueChain(store, ask.chain.arns[0], ask.chain) && ask.chain.keys.sessionToken.None?))
  {
    PastIsLonger(store, limit, ask);
    if found {
      StandsMeansStarts(sts, store, ask.chain, ask.past.chain, f, true);
    } else {
      ChainStartsRight(sts, store, ask.chain, ask.past);
    }
  }

  lemma ChainStartsRight(sts: AssumeRole, store: Store, c: Chain, past: Origin)
    requires 2 <= |c.arns| <= |past.chain.arns| && c.arns == past.chain.arns[..|c.arns|]
    requires AskFolds(sts, Searching(c, past, 0)) && TrueChain(store, c.arns[0], past.chain)
    requires c == past.chain || c.keys.sessionToken.Some?
    ensures StartIs(sts, store, c, past.chain, FromChain(c, past),
                    TrueChain(store, c.arns[0], c) && c.keys.sessionToken.None?)
  {
    ChainStandsOn(sts, store, c, past);
    StandsMeansStarts(sts, store, c, past.chain, FromChain(c, past),
                      TrueChain(store, c.arns[0], c) && c.keys.sessionToken.None?);
  }

  lemma PastIsLonger(store: Store, limit: nat, ask: Ask)
    requires ask.Searching? && AskOnRoute(store, limit, ask) && AskTrue(store, limit, ask)
    ensures 2 <= |ask.chain.arns| <= |ask.past.chain.arns|
    ensures ask.chain.arns == ask.past.chain.arns[..|ask.chain.arns|]
  {
    TrueRouteUnique(store, ask.chain.arns[0], ask.past.chain.arns, ask.past.route);
  }

  lemma StandsMeansStarts(sts: AssumeRole, store: Store, c: Chain, t: Chain, f: Flight, right: bool)
    requires 2 <= |c.arns| <= |t.arns| && f.next + 2 <= |c.arns| && c.arns == t.arns[..|c.arns|]
    requires TrueChain(store, c.arns[0], t) && (StandsOn(sts, t, f) <==> right)
    ensures StartIs(sts, store, c, t, f, right)
  {
    if right { RestOfTheWalk(sts, t, c.arns, f); }
  }

  /** The true chain of an inner principal is the rest of the true chain above it. */
  lemma SameBelow(store: Store, target: Arn, t: Chain, i: nat, below: Chain)
    requires TrueChain(store, target, t) && i < |t.arns| && TrueChain(store, t.arns[i], below)
    ensures i + 1 < |t.arns| && below == Chain(t.arns[i..], t.keys)
  {
    // A base has no route of its own, so the inner principal is not the base.
    assert Edge(store, below.arns[0], below.arns[0 + 1]);
    TrueRouteSuffix(store, target, t.arns, i);
    TrueRouteUnique(store, t.arns[i], below.arns, t.arns[i..]);
  }

  lemma EntryStandsOn(sts: AssumeRole, w: World, c: Chain, past: Origin, i: nat, keys: AccessKeys)
    requires 1 <= i < |c.arns| && c.arns[i] in w.origin
    requires TrueChain(w.store, c.arns[i], w.origin[c.arns[i]].chain)
    requires Fold(sts, w.origin[c.arns[i]].chain.arns, w.origin[c.arns[i]].chain.keys) == Ok(keys)
    requires KeyedRoute(w.store, c.arns[0], past.route) && StartsRoute(c.arns, past.route)
    requires TrueChain(w.store, c.arns[0], past.chain)
    ensures StandsOn(sts, past.chain, FromEntry(w, c, i, keys))
  {
    TrueRouteUnique(w.store, c.arns[0], past.chain.arns, past.route);
    assert past.chain.arns[i] == c.arns[i];
    SameBelow(w.store, c.arns[0], past.chain, i, w.origin[c.arns[i]].chain);
  }

  lemma ChainStandsOn(sts: AssumeRole, store: Store, c: Chain, past: Origin)
    requires |c.arns| >= 2 && AskFolds(sts, Searching(c, past, 0)) && TrueChain(store, c.arns[0], past.chain)
    requires c == past.chain || c.keys.sessionToken.Some?
    ensures StandsOn(sts, past.chain, FromChain(c, past))
        <==> TrueChain(store, c.arns[0], c) && c.keys.sessionToken.None?
  {
    assert c.keys.sessionToken.None? ==> c.keys.(sessionToken := None) == c.keys;
  }

  lemma RestOfTheWalk(sts: AssumeRole, t: Chain, arns: seq<Arn>, f: Flight)
    requires StandsOn(sts, t, f) && f.next + 2 <= |arns| <= |t.arns| && arns == t.arns[..|arns|]
    ensures Fold(sts, arns[..f.next + 2], f.creds) == Fold(sts, t.arns, t.keys)
  {
    var n := f.next + 1;
    FoldSplits(sts, t.arns[..n], t.arns[n..], t.keys, f.creds);
    assert t.arns[..n] + t.arns[n..] == t.arns;
    assert t.arns[..n] + [t.arns[n]] == arns[..n + 1];
  }

  /* ----- writes ----- */

  /** Rewriting a row and dropping its own entry leaves another cached principal's route intact exactly
      when the row is not on that route or still points where it pointed. */
  lemma WriteReachesOnlyRoutesThroughIt(sts: AssumeRole, limit: nat, w: World, q: Arn, arn: Arn, row: Row)
    requires limit >= 1 && q in w.entries && q in w.origin && TrueRoute(w.store, q, w.origin[q].route) && q != arn
    ensures var after := Run(sts, limit, w, [WriteRow(arn, row), Drop(arn)]);
            && arn !in after.entries
            && q in after.entries && after.entries[q] == w.entries[q] && after.origin == w.origin
            && (TrueRoute(after.store, q, w.origin[q].route) <==>
                  || arn !in w.origin[q].route
                  || (arn in w.store && row.secrets.Secrets? && NextHop(row) == NextHop(w.store[arn])))
  {
    RouteSurvivesWrite(w.store, q, w.origin[q].route, arn, row);
    RunOne(sts, limit, w, WriteRow(arn, row), [Drop(arn)]);
    RunOne(sts, limit, Next(sts, limit, w, WriteRow(arn, row)), Drop(arn), []);
    assert [WriteRow(arn, row)] + [Drop(arn)] == [WriteRow(arn, row), Drop(arn)];
    assert [Drop(arn)] + [] == [Drop(arn)];
  }

  /** Removing a row and dropping its own entry leaves another cached principal's route intact exactly when
      the row is not on that route. */
  lemma RemovalReachesOnlyRoutesThroughIt(sts: AssumeRole, limit: nat, w: World, q: Arn, arn: Arn)
    requires limit >= 1 && q in w.entries && q in w.origin && TrueRoute(w.store, q, w.origin[q].route) && q != arn
    ensures var after := Run(sts, limit, w, [RemoveRow(arn), Drop(arn)]);
            && arn !in after.entries
            && q in after.entries && after.entries[q] == w.entries[q] && after.origin == w.origin
            && (TrueRoute(after.store, q, w.origin[q].route) <==> arn !in w.origin[q].route)
  {
    RouteSurvivesRemoval(w.store, q, w.origin[q].route, arn);
    RunOne(sts, limit, w, RemoveRow(arn), [Drop(arn)]);
    RunOne(sts, limit, Next(sts, limit, w, RemoveRow(arn)), Drop(arn), []);
    assert [RemoveRow(arn)] + [Drop(arn)] == [RemoveRow(arn), Drop(arn)];
    assert [Drop(arn)] + [] == [Drop(arn)];
  }
}
