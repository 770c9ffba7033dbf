/**
 How sharp the agreement between the two walks is.

 A ladder is a table of `n` principals, each assuming from the one below, as the services' own writes
 build it. It shows that the bound on refreshed caches is reached, that interactive assumptions remove
 every bound once the limit is four or more, that deleting a row below a cached hop is not noticed, and
 what becomes of a request whose cached hop dies between the walk and the search.
 */
module ChainCacheWitness {
  import opened Prelude
  import opened CredentialModel
  import opened ChainWalks
  import opened RoleSessions
  import opened CredentialCache
  import opened CredentialServices
  import opened ChainCacheMachine
  import opened ChainCacheRoutes

  const ROLES := "arn:aws:iam::123456789012:role/"

  /** The role `i` steps above the base. */
  function Rung(i: nat): Arn {
    ROLES + seq(i + 1, _ => 'p')
  }

  const LONG_TERM := AccessKeys("key", "secret", None)
  const TEMPORARY := AccessKeys("temporary", "secret", Some("token"))
  const MARKED := AccessKeys("marked", "secret", Some("token"))
  const ENTRY := Entry(Plain("temporary"), Plain("secret"), Plain("token"), 1)

  /** STS that grants a session to the base's keys and to a whole session, and to nothing else. */
  function Strict(role: Arn, caller: AccessKeys): Result<Session, string> {
    if caller == LONG_TERM || caller == TEMPORARY then Ok(Session(TEMPORARY, Some(1))) else Err("invalid token")
  }

  /** STS whose sessions tell whether the caller's were complete. */
  function Lenient(role: Arn, caller: AccessKeys): Result<Session, string> {
    Ok(Session(if caller == LONG_TERM || caller == TEMPORARY then TEMPORARY else MARKED, Some(1)))
  }

  ghost predicate Grants(sts: AssumeRole) {
    forall role, caller ::
      caller == LONG_TERM || caller == TEMPORARY ==> sts(role, caller) == Ok(Session(TEMPORARY, Some(1)))
  }

  function Ladder(n: nat): Store {
    if n == 0 then map[]
    else if n == 1 then WithKeys(map[], Rung(0), LONG_TERM)
    else WithRelationship(Ladder(n - 1), Rung(n - 1), Rung(n - 2))
  }

  /** The cache that holds rungs 1 to `m`. */
  function UpTo(m: nat): Entries {
    if m == 0 then map[] else UpTo(m - 1)[Rung(m) := ENTRY]
  }

  function Down(i: nat): seq<Arn> {
    seq(i + 1, j requires 0 <= j <= i => Rung(i - j))
  }

  /** A table of principals the services would store. */
  ghost predicate Storable(store: Store) {
    forall a :: a in store ==> IsPrincipalArn(a)
  }

  /** Every write that builds a ladder is one the services accept. */
  lemma RungIsPrincipal(i: nat)
    ensures IsPrincipalArn(Rung(i))
  {
    var s := Rung(i);
    assert |ROLES| == 31;
    assert s[..13] == ROLES[..13] == "arn:aws:iam::";
    assert forall j :: 13 <= j < 25 ==> s[j] == ROLES[j];
    assert s[25..31] == ROLES[25..31] == ":role/";
    assert forall j :: 31 <= j < |s| ==> s[j] == 'p';
  }

  lemma RungsDiffer(i: nat, j: nat)
    requires i != j
    ensures Rung(i) != Rung(j)
  {
    assert |Rung(i)| == |ROLES| + i + 1 && |Rung(j)| == |ROLES| + j + 1;
  }

  function RungRow(i: nat): Row {
    if i == 0 then Row(None, Secrets(Some("key"), Some("secret"), None))
    else Row(Some(Rung(i - 1)), Secrets(None, None, None))
  }

  lemma {:induction false} LadderRow(n: nat, i: nat)
    ensures Rung(i) in Ladder(n) <==> i < n
    ensures i < n ==> Ladder(n)[Rung(i)] == RungRow(i)
  {
    if n > 0 {
      LadderRow(n - 1, i);
      LadderRow(n - 1, n - 1);
      if i != n - 1 { RungsDiffer(i, n - 1); }
    }
  }

  lemma {:induction false} LadderHasRungs(n: nat, a: Arn)
    requires a in Ladder(n)
    ensures exists i :: 0 <= i < n && a == Rung(i)
  {
    if a == Rung(n - 1) {
      assert 0 <= n - 1 < n;
    } else {
      LadderHasRungs(n - 1, a);
    }
  }

  lemma LadderBaseIsLongTerm(n: nat)
    ensures BasesAreLongTerm(Ladder(n))
  {
    forall a | IsBase(Ladder(n), a) && BaseKeys(Ladder(n)[a]).Some?
      ensures BaseKeys(Ladder(n)[a]).value.sessionToken.None?
    {
      LadderHasRungs(n, a);
      var i :| 0 <= i < n && a == Rung(i);
      LadderRow(n, i);
    }
  }

  lemma {:induction false} UpToHolds(m: nat, i: nat)
    ensures Rung(i) in UpTo(m) <==> 1 <= i <= m
    ensures 1 <= i <= m ==> UpTo(m)[Rung(i)] == ENTRY
  {
    if m > 0 {
      UpToHolds(m - 1, i);
      if i != m { RungsDiffer(i, m); }
    }
  }

  lemma LadderChain(n: nat, i: nat)
    requires 1 <= i < n
    ensures TrueChain(Ladder(n), Rung(i), Chain(Down(i), LONG_TERM))
  {
    var arns := Down(i);
    forall j | 0 <= j < |arns| - 1 ensures Edge(Ladder(n), arns[j], arns[j + 1]) {
      LadderRow(n, i - j);
      assert |Rung(i - j - 1)| > 0;
    }
    LadderRow(n, 0);
  }

  /** With rungs 1 to `m` cached, a walk from `top` is served once rung `m` is below the boundary. */
  lemma LadderServes(n: nat, m: nat, top: nat, limit: nat)
    requires 1 <= m < top < n && top - m + 1 < limit
    ensures CachedWalk(Ladder(n), Live(UpTo(m), 0), limit, Rung(top)) == Ok(Chain(Down(top)[..top - m + 1], TEMPORARY))
  {
    var live := Live(UpTo(m), 0);
    var cut := Down(top)[..top - m + 1];
    LadderChain(n, top);
    PathPrefix(Ladder(n), Down(top), top - m + 1);
    forall i: nat | i < |cut| - 1 ensures !Hit(live, limit, cut, i) {
      UpToHolds(m, top - i);
    }
    UpToHolds(m, m);
    RungsDiffer(m, top);
    assert Stop(Ladder(n), live, limit, Rung(top), cut, Ok(Chain(cut, TEMPORARY)));
    CachedWalkDecides(Ladder(n), live, limit, Rung(top), Ok(Chain(cut, TEMPORARY)));
  }

  lemma {:induction false} LadderFolds(sts: AssumeRole, arns: seq<Arn>)
    requires Grants(sts)
    ensures Fold(sts, arns, LONG_TERM) == Ok(if |arns| > 1 then TEMPORARY else LONG_TERM)
  {
    if |arns| > 1 { LadderFolds(sts, arns[1..]); }
  }

  lemma {:induction false} LadderWarmed(sts: AssumeRole, i: nat, low: nat)
    requires 1 <= low <= i && Grants(sts)
    ensures Warmed(sts, map[], Chain(Down(i), LONG_TERM), low) == UpTo(i - low)
    decreases i - low
  {
    var c := Chain(Down(i), LONG_TERM);
    if low < i {
      LadderWarmed(sts, i, low + 1);
      LadderFolds(sts, c.arns[low + 1..]);
      assert c.arns[low] == Rung(i - low);
    }
  }

  function Refresh(i: nat): seq<Step> {
    [StartRefresh(Rung(i))] + Hops(0, if i >= 1 then i - 1 else 0)
  }

  lemma RefreshTouchesNothing(i: nat)
    ensures TableUntouched(Refresh(i)) && RefreshOnly(Refresh(i))
  {}

  /** Refreshing rung `i` leaves the rungs between it and the base in the cache. */
  lemma LadderRefreshed(sts: AssumeRole, limit: nat, n: nat, i: nat)
    requires 2 <= i < n && i + 1 <= limit && Grants(sts)
    ensures var after := Run(sts, limit, Start(Ladder(n)), Refresh(i));
            after.store == Ladder(n) && after.entries == UpTo(i - 1) && after.asks == []
  {
    var c := Chain(Down(i), LONG_TERM);
    LadderChain(n, i);
    ColdWalkAccepts(Ladder(n), limit, Rung(i), c);
    LadderFolds(sts, c.arns[1..]);
    RefreshIsAFlight(sts, limit, Start(Ladder(n)), Rung(i), c, 1);
    LadderWarmed(sts, i, 1);
  }

  lemma RefreshedLadderServes(limit: nat, n: nat)
    requires limit >= 4 && n == 2 * limit - 3
    ensures CachedWalk(Ladder(n), Live(Run(Strict, limit, Start(Ladder(n)), Refresh(limit - 1)).entries, 0), limit,
                       Rung(n - 1)).Ok?
  {
    LadderRefreshed(Strict, limit, n, limit - 1);
    LadderServes(n, limit - 2, n - 1, limit);
  }

  /** The bound on refreshed caches is reached: for every limit of four or more there is a table and a
      run of refreshes after which a target whose true chain has exactly `2L - 3` principals is served,
      while the cold walk refuses it. */
  lemma RefreshBoundIsReached(limit: nat)
    returns (store: Store, steps: seq<Step>, target: Arn, t: Chain)
    requires limit >= 4
    ensures Storable(store) && TableUntouched(steps) && RefreshOnly(steps)
    ensures TrueChain(store, target, t) && |t.arns| == 2 * limit - 3
    ensures CachedWalk(store, Live(Run(Strict, limit, Start(store), steps).entries, 0), limit, target).Ok?
    ensures ColdWalk(store, limit, target).Err?
  {
    var n := 2 * limit - 3;
    store, target, t := Ladder(n), Rung(n - 1), Chain(Down(n - 1), LONG_TERM);
    steps := Refresh(limit - 1);
    LadderChain(n, n - 1);
    RefreshTouchesNothing(limit - 1);
    RefreshedLadderServes(limit, n);
    RefusedWhenTooLong(store, limit, target, t);
    LadderIsOfPrincipals(n);
  }

  lemma LadderIsOfPrincipals(n: nat)
    ensures Storable(Ladder(n))
  {
    forall a | a in Ladder(n) ensures IsPrincipalArn(a) {
      LadderHasRungs(n, a);
      var i :| 0 <= i < n && a == Rung(i);
      RungIsPrincipal(i);
    }
  }

  lemma RefusedWhenTooLong(store: Store, limit: nat, target: Arn, t: Chain)
    requires limit >= 1 && TrueChain(store, target, t) && |t.arns| > limit
    ensures ColdWalk(store, limit, target).Err?
  {
    var r := ColdWalk(store, limit, target);
    if r.Ok? {
      ColdWalkAccepts(store, limit, target, r.value);
      TrueRouteUnique(store, target, r.value.arns, t.arns);
    }
  }

  ghost predicate WalksAgree(sts: AssumeRole, limit: nat, store: Store, steps: seq<Step>, target: Arn, now: int)
    requires limit >= 1
  {
    CachedWalk(store, Live(Run(sts, limit, Start(store), steps).entries, now), limit, target).Ok?
    <==> ColdWalk(store, limit, target).Ok?
  }

  /** A limit makes the two walks accept the same principals, over every table and every run that leaves
      the table alone, exactly when it is at most three. */
  lemma WalksAgreeExactlyUpToThree(limit: nat)
    requires limit >= 1
    ensures (forall sts: AssumeRole, store: Store, steps: seq<Step>, target: Arn, now: int ::
               Storable(store) && TableUntouched(steps) ==> WalksAgree(sts, limit, store, steps, target, now))
        <==> limit <= 3
  {
    if limit <= 3 {
      forall sts: AssumeRole, store: Store, steps: seq<Step>, target: Arn, now: int | TableUntouched(steps)
        ensures WalksAgree(sts, limit, store, steps, target, now)
      {
        WalksAgreeUpToThree(sts, limit, store, steps, target, now);
      }
    } else {
      var store, steps, target, t := RefreshBoundIsReached(limit);
      assert Storable(store) && !WalksAgree(Strict, limit, store, steps, target, 0);
    }
  }

  /* ----- interactive assumptions ----- */

  /** One interactive assumption two rungs above the cached ones caches one rung more. */
  lemma AssumeClimbs(limit: nat, w: World, n: nat, m: nat) returns (steps: seq<Step>)
    requires limit >= 4 && 1 <= m && m + 2 < n
    requires w.store == Ladder(n) && w.entries == UpTo(m)
    ensures TableUntouched(steps)
    ensures var after := Run(Strict, limit, w, steps);
            after.store == Ladder(n) && after.entries == UpTo(m + 1)
  {
    var live := Live(w.entries, 0);
    var c := Chain(Down(m + 2)[..3], TEMPORARY);
    LadderServes(n, m, m + 2, limit);
    var ask := AskStartsFlight(Strict, limit, w, Rung(m + 2), 0, 0, c);
    var started := Run(Strict, limit, w, ask);
    ClimbingFlight(w, m, PastOf(w, live, limit, c));
    var f := |w.flights|;
    var after := Next(Strict, limit, started, Hop(f));
    steps := ask + [Hop(f)];
    RunAppends(Strict, limit, w, ask, [Hop(f)]);
    assert [Hop(f)] == [Hop(f)] + [];
    RunOne(Strict, limit, started, Hop(f), []);
  }

  lemma ClimbingFlight(w: World, m: nat, past: Origin)
    requires m >= 1 && w.entries == UpTo(m)
    ensures var f := Found(w, Live(UpTo(m), 0), Chain(Down(m + 2)[..3], TEMPORARY), past, 1);
            && f.next == 1 && f.creds == TEMPORARY
            && |f.origin.chain.arns| >= 2 && f.origin.chain.arns[1] == Rung(m + 1)
  {
    var live := Live(UpTo(m), 0);
    var c := Chain(Down(m + 2)[..3], TEMPORARY);
    assert c.arns[1] == Rung(m + 1) && c.arns[2] == Rung(m);
    UpToHolds(m, m + 1);
    UpToHolds(m, m);
    assert Closest(live, c.arns, 1) == Some(2);
    assert c.arns[..3][..2] == c.arns[..2];
  }

  lemma {:induction false} CachedUpTo(limit: nat, n: nat, m: nat) returns (steps: seq<Step>)
    requires limit >= 4 && 1 <= m && m + 2 <= n
    ensures TableUntouched(steps)
    ensures var after := Run(Strict, limit, Start(Ladder(n)), steps);
            after.store == Ladder(n) && after.entries == UpTo(m)
  {
    if m == 1 {
      steps := Refresh(2);
      LadderRefreshed(Strict, limit, n, 2);
    } else {
      var before := CachedUpTo(limit, n, m - 1);
      var climb := AssumeClimbs(limit, Run(Strict, limit, Start(Ladder(n)), before), n, m - 1);
      RunAppends(Strict, limit, Start(Ladder(n)), before, climb);
      steps := before + climb;
    }
  }

  /** Interactive assumptions also cache the inner hops of chains that were themselves served from the
      cache. From a limit of four on this removes every bound: whatever the length, some run that never
      touches the table makes the cached walk serve a target that far from its base. */
  lemma InteractiveCachingHasNoBound(limit: nat, length: nat)
    returns (store: Store, steps: seq<Step>, target: Arn, t: Chain)
    requires limit >= 4 && length >= 3
    ensures Storable(store) && TableUntouched(steps)
    ensures TrueChain(store, target, t) && |t.arns| == length
    ensures CachedWalk(store, Live(Run(Strict, limit, Start(store), steps).entries, 0), limit, target).Ok?
    ensures length > limit ==> ColdWalk(store, limit, target).Err?
  {
    store, target, t := Ladder(length), Rung(length - 1), Chain(Down(length - 1), LONG_TERM);
    LadderIsOfPrincipals(length);
    LadderChain(length, length - 1);
    steps := CachedUpTo(limit, length, length - 2);
    LadderServes(length, length - 2, length - 1, limit);
    if length > limit { RefusedWhenTooLong(store, limit, target, t); }
  }

  /** STS that hands the caller's own credentials on. */
  function Echo(role: Arn, caller: AccessKeys): Result<Session, string> {
    Ok(Session(caller, None))
  }

  lemma {:induction false} FoldOfEcho(arns: seq<Arn>, keys: AccessKeys)
    ensures Fold(Echo, arns, keys) == Ok(keys)
  {
    if |arns| > 1 { FoldOfEcho(arns[1..], keys); }
  }

  /** A search that finds no entry ends where the served chain does, whatever STS answers, exactly when the
      chain's keys carry no session token: it drops the token on the way. */
  lemma EmptySearchNeedsTokenlessKeys(c: Chain, past: Origin)
    ensures var f := FromChain(c, past);
            (forall sts: AssumeRole :: Fold(sts, f.origin.chain.arns, f.creds) == Fold(sts, c.arns, c.keys))
            <==> c.keys.sessionToken.None?
  {
    var f := FromChain(c, past);
    if c.keys.sessionToken.Some? {
      FoldOfEcho(c.arns, c.keys);
      FoldOfEcho(f.origin.chain.arns, f.creds);
      assert Fold(Echo, f.origin.chain.arns, f.creds) != Fold(Echo, c.arns, c.keys);
    }
  }

  lemma DropOne(sts: AssumeRole, limit: nat, w: World, arn: Arn)
    requires limit >= 1
    ensures Run(sts, limit, w, [Drop(arn)]) == w.(entries := w.entries - {arn})
  {
    assert [Drop(arn)] == [Drop(arn)] + [];
    RunOne(sts, limit, w, Drop(arn), []);
  }

  lemma RequestIsServed(sts: AssumeRole, limit: nat, w: World, top: nat) returns (walk: seq<Step>, past: Origin)
    requires 2 <= top <= 3 && limit > top && w.store == Ladder(4) && w.entries == UpTo(1)
    ensures TableUntouched(walk)
    ensures Run(sts, limit, w, walk) == w.(asks := w.asks + [Searching(Chain(Down(top)[..top], TEMPORARY), past, 0)])
  {
    var c := Chain(Down(top)[..top], TEMPORARY);
    LadderServes(4, 1, top, limit);
    past := PastOf(w, Live(w.entries, 0), limit, c);
    walk := AskIsServed(sts, limit, w, Rung(top), 0, c);
  }

  /** Rung 1 is cached, and a request for `top` is served from it. */
  lemma ServedFromRungOne(sts: AssumeRole, limit: nat, top: nat) returns (steps: seq<Step>, past: Origin)
    requires 2 <= top <= 3 && limit > top && Grants(sts)
    ensures TableUntouched(steps)
    ensures var after := Run(sts, limit, Start(Ladder(4)), steps);
            && after.store == Ladder(4) && after.entries == UpTo(1)
            && after.asks == [Searching(Chain(Down(top)[..top], TEMPORARY), past, 0)]
  {
    LadderRefreshed(sts, limit, 4, 2);
    var walk;
    walk, past := RequestIsServed(sts, limit, Run(sts, limit, Start(Ladder(4)), Refresh(2)), top);
    steps := Refresh(2) + walk;
    RunAppends(sts, limit, Start(Ladder(4)), Refresh(2), walk);
  }

  /** The same, and then the entry goes. */
  lemma ServedThenDropped(sts: AssumeRole, limit: nat, top: nat) returns (steps: seq<Step>, past: Origin)
    requires 2 <= top <= 3 && limit > top && Grants(sts)
    ensures TableUntouched(steps)
    ensures var after := Run(sts, limit, Start(Ladder(4)), steps);
            && after.store == Ladder(4) && after.entries == map[]
            && after.asks == [Searching(Chain(Down(top)[..top], TEMPORARY), past, 0)]
  {
    var before;
    before, past := ServedFromRungOne(sts, limit, top);
    steps := before + [Drop(Rung(1))];
    RunAppends(sts, limit, Start(Ladder(4)), before, [Drop(Rung(1))]);
    DropOne(sts, limit, Run(sts, limit, Start(Ladder(4)), before), Rung(1));
    assert UpTo(1) - {Rung(1)} == map[] by { assert UpTo(0) == map[]; }
  }

  /** A request that was served from a cached hop which dies before the search is refused by an STS that
      misses the token, over a table whose only base is long-term and whose cold chain goes through: for every
      limit of three or more. */
  lemma DeadHopIsRefused(limit: nat) returns (steps: seq<Step>)
    requires limit >= 3
    ensures TableUntouched(steps) && BasesAreLongTerm(Ladder(4)) && RefusesBare(Strict, Ladder(4))
    ensures var w := Run(Strict, limit, Start(Ladder(4)), steps);
            && SearchEnds(w, 0, 0) && !EntryFound(w, 0) && w.asks[0].chain.arns == [Rung(2), Rung(1)]
            && Fold(Strict, w.asks[0].chain.arns, w.asks[0].chain.keys).Ok?
            && Fold(Strict, w.asks[0].chain.arns, Started(w, 0, 0).creds).Err?
    ensures ColdWalk(Ladder(4), limit, Rung(2)) == Ok(Chain(Down(2), LONG_TERM)) && Fold(Strict, Down(2), LONG_TERM).Ok?
  {
    var before, past := ServedThenDropped(Strict, limit, 2);
    var w := Run(Strict, limit, Start(Ladder(4)), before);
    var look := [Read(0, 0)];
    steps := before + look;
    RunAppends(Strict, limit, Start(Ladder(4)), before, look);
    assert look == look + [];
    RunOne(Strict, limit, w, Read(0, 0), []);
    LadderBaseIsLongTerm(4);
    StrictRefusesBare(4);
    LadderChain(4, 2);
    ColdWalkAccepts(Ladder(4), limit, Rung(2), Chain(Down(2), LONG_TERM));
    LadderFolds(Strict, Down(2));
    assert Down(2)[..2] == [Rung(2), Rung(1)];
    assert [Rung(2), Rung(1)][1..] == [Rung(1)];
  }

  const SPOILED := Entry(Plain("marked"), Plain("secret"), Plain("token"), 1)

  /** From a limit of four on such a request also has an inner hop to cache, and an STS that answers
      credentials without their token then leaves an entry that is not the true chain's. */
  lemma SpoiledEntry(limit: nat) returns (steps: seq<Step>)
    requires limit >= 4
    ensures TableUntouched(steps)
    ensures var after := Run(Lenient, limit, Start(Ladder(4)), steps);
            after.store == Ladder(4) && after.entries == map[Rung(2) := SPOILED]
  {
    var before, past := ServedThenDropped(Lenient, limit, 3);
    var w := Run(Lenient, limit, Start(Ladder(4)), before);
    var rest := SpoiledRest(limit, w, past);
    steps := before + rest;
    RunAppends(Lenient, limit, Start(Ladder(4)), before, rest);
  }

  lemma SpoiledRest(limit: nat, w: World, past: Origin) returns (steps: seq<Step>)
    requires limit >= 1 && w.entries == map[]
    requires w.asks == [Searching(Chain(Down(3)[..3], TEMPORARY), past, 0)]
    ensures TableUntouched(steps)
    ensures var after := Run(Lenient, limit, w, steps);
            after.store == w.store && after.entries == map[Rung(2) := SPOILED]
  {
    var searched := ReadsSearch(Lenient, limit, w, 0, 0);
    var started := Run(Lenient, limit, w, Reads(0, 0, searched));
    SpoilingFlight(past, w);
    var hop := [Hop(|w.flights|)];
    steps := Reads(0, 0, searched) + hop;
    RunAppends(Lenient, limit, w, Reads(0, 0, searched), hop);
    assert hop == hop + [];
    RunOne(Lenient, limit, started, Hop(|w.flights|), []);
  }

  /** The strict STS is one that misses the token, so the agreement of leaves covers it at every limit. */
  lemma StrictRefusesBare(n: nat)
    ensures RefusesBare(Strict, Ladder(n))
  {
    forall keys: AccessKeys, role
      | keys.sessionToken.Some? && (Issued(Strict, keys) || Held(Ladder(n), keys))
      ensures Strict(role, Bare(keys)).Err?
    {
      LadderBaseIsLongTerm(n);
      if Issued(Strict, keys) { assert keys == TEMPORARY; }
    }
  }

  /** That STS misses the token is what the agreement of leaves needs beyond a limit of three: where it answers
      session credentials without one, a hop that dies between a walk and its search leaves a cache, over a
      table whose only base is long-term, from which the walk ends in other credentials than the cold one. */
  lemma DroppedTokenSpoilsTheCache(limit: nat) returns (steps: seq<Step>, c: Chain)
    requires limit >= 4
    ensures TableUntouched(steps) && BasesAreLongTerm(Ladder(4)) && !RefusesBare(Lenient, Ladder(4))
    ensures CachedWalk(Ladder(4), Live(Run(Lenient, limit, Start(Ladder(4)), steps).entries, 0), limit, Rung(3))
            == Ok(c)
    ensures ColdWalk(Ladder(4), limit, Rung(3)) == Ok(Chain(Down(3), LONG_TERM))
    ensures Fold(Lenient, c.arns, c.keys) == Ok(MARKED) && Fold(Lenient, Down(3), LONG_TERM) == Ok(TEMPORARY)
  {
    steps := SpoiledEntry(limit);
    c := Chain([Rung(3), Rung(2)], MARKED);
    SpoiledServes(limit, map[Rung(2) := SPOILED]);
    LadderBaseIsLongTerm(4);
    LadderChain(4, 3);
    ColdWalkAccepts(Ladder(4), limit, Rung(3), Chain(Down(3), LONG_TERM));
    LadderFolds(Lenient, Down(3));
    assert c.arns[1..] == [Rung(2)];
    LenientAnswersBare();
  }

  lemma LenientAnswersBare()
    ensures !RefusesBare(Lenient, Ladder(4))
  {
    assert Lenient(Rung(0), LONG_TERM).Ok? && Lenient(Rung(0), LONG_TERM).value.keys == TEMPORARY;
    assert Issued(Lenient, TEMPORARY);
    assert Lenient(Rung(0), Bare(TEMPORARY)).Ok?;
  }

  /** Whatever the cached walk serves resolves to the outcome of the target's true chain. */
  ghost predicate LeavesAgree(sts: AssumeRole, limit: nat, store: Store, steps: seq<Step>, target: Arn, now: int)
    requires limit >= 1
  {
    forall c :: CachedWalk(store, Live(Run(sts, limit, Start(store), steps).entries, now), limit, target) == Ok(c) ==>
      exists t :: TrueChain(store, target, t) && Fold(sts, c.arns, c.keys) == Fold(sts, t.arns, t.keys)
  }

  lemma LeavesAgreeUpToThree(sts: AssumeRole, limit: nat, store: Store, steps: seq<Step>, target: Arn, now: int)
    requires 1 <= limit <= 3 && BasesAreLongTerm(store) && TableUntouched(steps)
    ensures LeavesAgree(sts, limit, store, steps, target, now)
  {
    LongTermBasesKeepTokens(sts, limit, Start(store), steps);
    forall c: Chain | CachedWalk(store, Live(Run(sts, limit, Start(store), steps).entries, now), limit, target) == Ok(c)
      ensures exists t :: TrueChain(store, target, t) && Fold(sts, c.arns, c.keys) == Fold(sts, t.arns, t.keys)
    {
      KeptTokensKeepLeaves(sts, limit, store, steps, target, now, c);
    }
  }

  /** When nothing at all is asked of STS, cached resolution over long-term bases ends in the cold leaf, for
      every STS and whatever interactive requests, expiries and dying hops there were, exactly when the limit
      is at most three. */
  lemma LeavesAgreeExactlyUpToThree(limit: nat)
    requires limit >= 1
    ensures (forall sts: AssumeRole, store: Store, steps: seq<Step>, target: Arn, now: int ::
               Storable(store) && BasesAreLongTerm(store) && TableUntouched(steps)
               ==> LeavesAgree(sts, limit, store, steps, target, now))
        <==> limit <= 3
  {
    if limit <= 3 {
      forall sts: AssumeRole, store: Store, steps: seq<Step>, target: Arn, now: int
        | BasesAreLongTerm(store) && TableUntouched(steps)
        ensures LeavesAgree(sts, limit, store, steps, target, now)
      {
        LeavesAgreeUpToThree(sts, limit, store, steps, target, now);
      }
    } else {
      var steps, c := DroppedTokenSpoilsTheCache(limit);
      LadderIsOfPrincipals(4);
      SpoiledLeafDiffers(limit, steps, c);
    }
  }

  lemma SpoiledLeafDiffers(limit: nat, steps: seq<Step>, c: Chain)
    requires limit >= 4
    requires CachedWalk(Ladder(4), Live(Run(Lenient, limit, Start(Ladder(4)), steps).entries, 0), limit, Rung(3))
            == Ok(c)
    requires ColdWalk(Ladder(4), limit, Rung(3)) == Ok(Chain(Down(3), LONG_TERM))
    requires Fold(Lenient, c.arns, c.keys) == Ok(MARKED) && Fold(Lenient, Down(3), LONG_TERM) == Ok(TEMPORARY)
    ensures !LeavesAgree(Lenient, limit, Ladder(4), steps, Rung(3), 0)
  {
    ColdWalkAccepts(Ladder(4), limit, Rung(3), Chain(Down(3), LONG_TERM));
    forall t | TrueChain(Ladder(4), Rung(3), t) ensures Fold(Lenient, t.arns, t.keys) == Ok(TEMPORARY) {
      TrueRouteUnique(Ladder(4), Rung(3), t.arns, Down(3));
    }
  }

  lemma SpoilingFlight(past: Origin, w: World)
    requires w.entries == map[]
    ensures var c := Chain(Down(3)[..3], TEMPORARY);
            var f := Found(w, Live(w.entries, 0), c, past, 1);
            && f.next == 1 && f.origin.chain.arns == c.arns && c.arns[1] == Rung(2)
            && f.creds == AccessKeys("temporary", "secret", None)
  {
    var c := Chain(Down(3)[..3], TEMPORARY);
    assert Closest(Live(w.entries, 0), c.arns, 1).None?;
  }

  lemma SpoiledServes(limit: nat, entries: Entries)
    requires limit >= 4 && entries == map[Rung(2) := SPOILED]
    ensures CachedWalk(Ladder(4), Live(entries, 0), limit, Rung(3)) == Ok(Chain([Rung(3), Rung(2)], MARKED))
  {
    var cut := [Rung(3), Rung(2)];
    RungsDiffer(2, 3);
    LadderRow(4, 3);
    assert |Rung(2)| > 0;
    assert Edge(Ladder(4), cut[0], cut[0 + 1]);
    assert Stop(Ladder(4), Live(entries, 0), limit, Rung(3), cut, Ok(Chain(cut, MARKED)));
    CachedWalkDecides(Ladder(4), Live(entries, 0), limit, Rung(3), Ok(Chain(cut, MARKED)));
  }

  /* ----- removal ----- */

  /** Removing a credential drops only its own entry. With the default limit of three, and any larger
      one, a role warmed above a base keeps being served after the base is gone. */
  lemma RemovedBaseIsStillServed(limit: nat) returns (steps: seq<Step>)
    requires limit >= 3
    ensures IsPrincipalArn(Rung(0)) && IsPrincipalArn(Rung(2))
    ensures var after := Run(Strict, limit, Start(Ladder(3)), steps);
            && Rung(0) !in after.store && Rung(0) !in after.entries
            && CachedWalk(after.store, Live(after.entries, 0), limit, Rung(2)).Ok?
            && ColdWalk(after.store, limit, Rung(2)) == Err(NotFound)
  {
    RungIsPrincipal(0);
    RungIsPrincipal(2);
    LadderRefreshed(Strict, limit, 3, 2);
    var remove := [RemoveRow(Rung(0)), Drop(Rung(0))];
    steps := Refresh(2) + remove;
    RunAppends(Strict, limit, Start(Ladder(3)), Refresh(2), remove);
    RemoveOne(limit, Run(Strict, limit, Start(Ladder(3)), Refresh(2)), Rung(0));
    GoneBase(limit, Ladder(3) - {Rung(0)});
  }

  lemma RemoveOne(limit: nat, w: World, arn: Arn)
    requires limit >= 1
    ensures Run(Strict, limit, w, [RemoveRow(arn), Drop(arn)])
            == w.(store := w.store - {arn}, entries := w.entries - {arn})
  {
    assert [RemoveRow(arn), Drop(arn)] == [RemoveRow(arn)] + [Drop(arn)];
    RunOne(Strict, limit, w, RemoveRow(arn), [Drop(arn)]);
    DropOne(Strict, limit, w.(store := w.store - {arn}), arn);
  }

  lemma GoneBase(limit: nat, store: Store)
    requires limit >= 3 && store == Ladder(3) - {Rung(0)}
    ensures Rung(0) !in UpTo(1) && UpTo(1) - {Rung(0)} == UpTo(1)
    ensures CachedWalk(store, Live(UpTo(1), 0), limit, Rung(2)).Ok?
    ensures ColdWalk(store, limit, Rung(2)) == Err(NotFound)
  {
    RungsDiffer(0, 1);
    RungsDiffer(0, 2);
    RungsDiffer(1, 2);
    UpToHolds(1, 0);
    UpToHolds(1, 1);
    LadderRow(3, 1);
    LadderRow(3, 2);
    assert |Rung(0)| > 0 && |Rung(1)| > 0;
    var path := [Rung(2), Rung(1), Rung(0)];
    assert Edge(store, path[0], path[0 + 1]) && Edge(store, path[1], path[1 + 1]);
    assert IsPath(store, path) && Verdict(store, limit, path, Err(NotFound));
    ColdWalkDecides(store, limit, Rung(2), Err(NotFound));
    var cut := [Rung(2), Rung(1)];
    assert Stop(store, Live(UpTo(1), 0), limit, Rung(2), cut, Ok(Chain(cut, TEMPORARY)));
    CachedWalkDecides(store, Live(UpTo(1), 0), limit, Rung(2), Ok(Chain(cut, TEMPORARY)));
  }
}
