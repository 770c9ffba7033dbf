/** The interactive path over a served chain: find the closest live entry, then assume role by role up to
    the target, caching the inner hops on the way. */
module InteractiveAssume {
  import opened Prelude
  import opened CredentialModel
  import opened ChainWalks
  import opened RoleSessions
  import opened CredentialCache
  import opened CredentialServices
  import opened ChainCacheMachine

  /** Where a search at one instant starts the walk, and with which credentials. */
  function ClosestStart(live: LiveView, c: Chain): (int, AccessKeys)
    requires |c.arns| >= 1
  {
    match Closest(live, c.arns, 1)
    case Some(i) => (i - 1, live[c.arns[i]])
    case None => (|c.arns| - 2, c.keys.(sessionToken := None))
  }

  /** The same when the lookup at index `i` reads the clock at `clock(i)`. */
  function ClosestAt(entries: Entries, clock: nat -> int, arns: seq<Arn>, from: nat): (k: Option<nat>)
    requires from <= |arns|
    ensures k.Some? ==> from <= k.value < |arns| && arns[k.value] in Live(entries, clock(k.value))
    ensures forall i: nat :: from <= i < |arns| && (k.None? || i < k.value) ==> arns[i] !in Live(entries, clock(i))
    decreases |arns| - from
  {
    if from == |arns| then None
    else if arns[from] in Live(entries, clock(from)) then Some(from)
    else ClosestAt(entries, clock, arns, from + 1)
  }

  function ClosestStartAt(entries: Entries, clock: nat -> int, c: Chain): (int, AccessKeys)
    requires |c.arns| >= 1
  {
    match ClosestAt(entries, clock, c.arns, 1)
    case Some(i) => (i - 1, Live(entries, clock(i))[c.arns[i]])
    case None => (|c.arns| - 2, c.keys.(sessionToken := None))
  }

  lemma {:induction false} AdvancingSearchIsOneSearch(entries: Entries, clock: nat -> int, arns: seq<Arn>, from: nat)
    returns (k: nat)
    requires from <= |arns| && Advancing(clock)
    ensures k >= from && ClosestAt(entries, clock, arns, from) == Closest(Live(entries, clock(k)), arns, from)
    ensures ClosestAt(entries, clock, arns, from).Some? ==> k == ClosestAt(entries, clock, arns, from).value
    decreases |arns| - from
  {
    k := from;
    if from < |arns| && arns[from] !in Live(entries, clock(from)) {
      k := AdvancingSearchIsOneSearch(entries, clock, arns, from + 1);
      DeadStaysDead(entries, clock, from, k, arns[from]);
    }
  }

  /** While the clock advances during a search, the search still starts where it would at one instant. */
  lemma AdvancingStartIsOneStart(entries: Entries, clock: nat -> int, c: Chain) returns (k: nat)
    requires |c.arns| >= 1 && Advancing(clock)
    ensures ClosestStartAt(entries, clock, c) == ClosestStart(Live(entries, clock(k)), c)
  {
    k := AdvancingSearchIsOneSearch(entries, clock, c.arns, 1);
  }

  /** The search starts from the first entry, counted from the target, that had not expired when it was looked
      up, with that entry's fields; and if none has, from the chain's key pair alone. */
  lemma SearchStartsAtLiveEntry(entries: Entries, clock: nat -> int, c: Chain)
    requires |c.arns| >= 1
    ensures var (start, keys) := ClosestStartAt(entries, clock, c);
            && -1 <= start <= |c.arns| - 2
            && (forall i: nat :: 1 <= i < start + 1 ==> c.arns[i] !in Live(entries, clock(i)))
            && (|| (start >= 0 && c.arns[start + 1] in entries
                    && Answers(entries[c.arns[start + 1]], clock(start + 1), keys))
                || (&& start == |c.arns| - 2
                    && (forall i: nat :: 1 <= i < |c.arns| ==> c.arns[i] !in Live(entries, clock(i)))
                    && keys == AccessKeys(c.keys.accessKeyId, c.keys.secretAccessKey, None)))
  {
    var k := ClosestAt(entries, clock, c.arns, 1);
    if k.Some? { LiveMeans(entries, clock(k.value), c.arns[k.value]); }
  }

  method FindClosestCachedCredential(cache: CredentialsCacheDAO, chain: Chain, clock: nat -> int)
    returns (startIndex: int, credentials: AccessKeys)
    requires |chain.arns| >= 1 && Advancing(clock)
    modifies cache
    ensures (startIndex, credentials) == ClosestStartAt(old(cache.entries), clock, chain)
    ensures OnlyEvicted(old(cache.entries), cache.entries, clock(|chain.arns|))
  {
    startIndex := |chain.arns| - 2;
    credentials := AccessKeys(chain.keys.accessKeyId, chain.keys.secretAccessKey, None);
    ghost var before := cache.entries;
    var i := 1;
    while i < |chain.arns|
      invariant 1 <= i <= |chain.arns|
      invariant OnlyEvicted(before, cache.entries, clock(i))
      invariant ClosestAt(before, clock, chain.arns, 1) == ClosestAt(before, clock, chain.arns, i)
    {
      ghost var entries := cache.entries;
      var cached := cache.GetCachedCredential(chain.arns[i], clock(i));
      EvictsOnly(before, entries, cache.entries, chain.arns[i], clock(i));
      assert clock(i) <= clock(i + 1) <= clock(|chain.arns|);
      if cached.Some? {
        return i - 1, cached.value;
      }
      i := i + 1;
    }
  }

  /** The part of the chain that is walked, with the credentials the walk starts from. */
  function Walked(chain: Chain, startIndex: nat, credentials: AccessKeys): Chain
    requires startIndex + 2 <= |chain.arns|
  {
    Chain(chain.arns[..startIndex + 2], credentials)
  }

  /** Every inner hop of the walked part is cached, the target never, and a refusal keeps what was cached
      before it. `low` is the last hop that went through. */
  method AssumeRoleChain(cache: CredentialsCacheDAO, sts: AssumeRole, chain: Chain, startIndex: nat,
                         credentials: AccessKeys)
    returns (r: Result<AccessKeys, string>, ghost low: nat)
    requires startIndex + 2 <= |chain.arns|
    modifies cache
    ensures var walked := Walked(chain, startIndex, credentials);
            && r == Fold(sts, walked.arns, walked.keys)
            && 1 <= low < |walked.arns|
            && cache.entries == Warmed(sts, old(cache.entries), walked, low)
            && (r.Ok? ==> low == 1)
            && (r.Err? ==> HopSession(sts, walked, low - 1).Err?)
  {
    ghost var walked := Walked(chain, startIndex, credentials);
    var newCredentials := credentials;
    var i: int := startIndex;
    low := startIndex + 1;
    while i >= 0
      invariant -1 <= i <= startIndex
      invariant Fold(sts, walked.arns[i + 1..], walked.keys) == Ok(newCredentials)
      invariant low == if i < 1 then 1 else i + 1
      invariant cache.entries == Warmed(sts, old(cache.entries), walked, low)
      decreases i
    {
      FoldStep(sts, walked, i);
      var assumed := sts(chain.arns[i], newCredentials);
      if assumed.Err? {
        FoldFailsUpwards(sts, walked.arns[..i], walked.arns[i..], walked.keys);
        assert walked.arns[..i] + walked.arns[i..] == walked.arns;
        return Err(assumed.error), low;
      }
      var session := assumed.value;
      if i > 0 && session.expiration.Some? && Truthy(session.keys.sessionToken) {
        cache.StoreCachedCredential(chain.arns[i], session.keys, session.expiration.value);
      }
      newCredentials := session.keys;
      i := i - 1;
      low := if i < 1 then 1 else i + 1;
    }
    assert walked.arns[0..] == walked.arns;
    return Ok(newCredentials), low;
  }

  lemma AheadIsWalked(sts: AssumeRole, limit: nat, w: World, later: int, c: Chain, past: Origin)
    requires Coherent(sts, w) && |c.arns| >= 2
    ensures var live := Live(w.entries, later);
            var (startIndex, credentials) := ClosestStart(live, c);
            var f := Found(w, live, c, past, 1);
            && 0 <= startIndex == f.next && f.next + 2 <= |f.origin.chain.arns|
            && startIndex + 2 <= |c.arns| && Ahead(f) == Walked(c, startIndex, credentials)
  {
    match Closest(Live(w.entries, later), c.arns, 1)
    case Some(i) => ContinuedFolds(sts, w, later, c.arns[..i + 1]);
    case None =>
  }

  /** The interactive path is a run of the machine: walk, search, and hops down to `low` write just what
      `AssumeRoleChain` writes over the served chain from the entry closest to the target. */
  lemma InteractiveIsAFlight(sts: AssumeRole, limit: nat, w: World, target: Arn, now: int, later: int, c: Chain,
                             walked: Chain, low: nat)
    returns (steps: seq<Step>)
    requires limit >= 1 && Coherent(sts, w)
    requires CachedWalk(w.store, Live(w.entries, now), limit, target) == Ok(c) && |c.arns| >= 2
    requires var (startIndex, credentials) := ClosestStart(Live(w.entries, later), c);
             0 <= startIndex <= |c.arns| - 2 && walked == Walked(c, startIndex, credentials)
    requires 1 <= low < |walked.arns| && Fold(sts, walked.arns[low..], walked.keys).Ok?
    ensures OnlyReads(steps)
    ensures var after := Run(sts, limit, w, steps + Hops(|w.flights|, |walked.arns| - 1 - low));
            after.store == w.store && after.entries == Warmed(sts, w.entries, walked, low)
  {
    var past := PastOf(w, Live(w.entries, now), limit, c);
    steps := AskStartsFlight(sts, limit, w, target, now, later, c);
    AheadIsWalked(sts, limit, w, later, c, past);
    var started := Run(sts, limit, w, steps);
    FlightWarms(sts, limit, started, |w.flights|, walked, low);
    RunAppends(sts, limit, w, steps, Hops(|w.flights|, |walked.arns| - 1 - low));
  }
}
