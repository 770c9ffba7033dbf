/**
 The stateful services around the credential chain: the `credentials` table, the cache, the two chain
 walks, the walkers that assume roles along a chain, and the service that rewires relationships.
 Each loop is the source's own; each contract ties it to the functions the theorems are about.
 */
module CredentialServices {
  import opened Prelude
  import opened CredentialModel
  import opened ChainWalks
  import opened RoleSessions
  import opened CredentialCache

  /** Upserting keys keeps the relationship; upserting a relationship keeps the keys. */
  function WithKeys(store: Store, arn: Arn, keys: AccessKeys): Store {
    store[arn := Row(if arn in store then store[arn].assumedBy else None,
                     Secrets(Some(keys.accessKeyId), Some(keys.secretAccessKey),
                             if Truthy(keys.sessionToken) then keys.sessionToken else None))]
  }

  function WithRelationship(store: Store, arn: Arn, assumedBy: Arn): Store {
    store[arn := Row(Some(assumedBy), if arn in store then store[arn].secrets else Secrets(None, None, None))]
  }

  /** The two writes of a row are independent, in either order: each keeps what the other wrote, and neither
      touches another row. */
  lemma WritesAreIndependent(store: Store, arn: Arn, keys: AccessKeys, assumedBy: Arn)
    ensures var both := WithKeys(WithRelationship(store, arn, assumedBy), arn, keys);
            && both == WithRelationship(WithKeys(store, arn, keys), arn, assumedBy)
            && both.Keys == store.Keys + {arn}
            && both[arn].assumedBy == Some(assumedBy)
            && both[arn].secrets.Secrets?
            && both[arn].secrets.accessKeyId == Some(keys.accessKeyId)
            && both[arn].secrets.secretAccessKey == Some(keys.secretAccessKey)
            && forall q :: q in store && q != arn ==> both[q] == store[q]
  {}

  /** Round trip: the uncached walk above a base carries exactly the keys last stored for it, with an empty
      token read back as none, whatever the row held before. */
  lemma StoredKeysComeBack(store: Store, base: Arn, keys: AccessKeys, limit: nat, target: Arn, arns: seq<Arn>)
    requires limit >= 1 && TrueRoute(WithKeys(store, base, keys), target, arns) && arns[|arns| - 1] == base
    requires |arns| <= limit && keys.accessKeyId != "" && keys.secretAccessKey != ""
    ensures ColdWalk(WithKeys(store, base, keys), limit, target)
         == Ok(Chain(arns, if keys.sessionToken == Some("") then keys.(sessionToken := None) else keys))
  {
    var c := Chain(arns, if keys.sessionToken == Some("") then keys.(sessionToken := None) else keys);
    ColdWalkAccepts(WithKeys(store, base, keys), limit, target, c);
  }

  /** Storing keys never moves a route: keys say nothing about where a walk goes. */
  lemma StoringKeysKeepsRoutes(store: Store, arn: Arn, keys: AccessKeys, target: Arn, arns: seq<Arn>)
    requires TrueRoute(store, target, arns)
    ensures TrueRoute(WithKeys(store, arn, keys), target, arns)
  {
    if arn in arns {
      var k :| 0 <= k < |arns| && arns[k] == arn;
      if k < |arns| - 1 {
        assert Edge(store, arns[k], arns[k + 1]);
      }
    }
    RouteSurvivesWrite(store, target, arns, arn, WithKeys(store, arn, keys)[arn]);
  }

  /** Rewiring a principal keeps every key in the table, and its new trust path is the principal followed
      by the route it now assumes from, exactly when it names a parent, is not on that route itself, which
      would close a cycle, and has a row that can be read. */
  lemma RewiringGraftsTheNewRoute(store: Store, arn: Arn, assumedBy: Arn, arns: seq<Arn>)
    requires TrueRoute(store, assumedBy, arns)
    ensures TrueRoute(WithRelationship(store, arn, assumedBy), arn, [arn] + arns)
        <==> assumedBy != "" && arn !in arns && (arn in store ==> store[arn].secrets.Secrets?)
  {
    var after := WithRelationship(store, arn, assumedBy);
    var r := [arn] + arns;
    if TrueRoute(after, arn, r) {
      assert Edge(after, r[0], r[0 + 1]);
      if arn in arns {
        var k :| 0 <= k < |arns| && arns[k] == arn;
        TrueRouteNeverRepeats(after, arn, r, 0, k + 1);
      }
    }
    if assumedBy != "" && arn !in arns && (arn in store ==> store[arn].secrets.Secrets?) {
      forall i | 0 <= i < |r| - 1 ensures Edge(after, r[i], r[i + 1]) {
        if i > 0 {
          assert Edge(store, arns[i - 1], arns[i - 1 + 1]);
        }
      }
    }
  }

  class CredentialsDAO {
    var credentials: Store
    const limit: nat

    constructor (limit: nat, credentials: Store)
      requires limit >= 1
      ensures this.limit == limit && this.credentials == credentials
    {
      this.limit := limit;
      this.credentials := credentials;
    }

    method GetCredentialByPrincipalArn(arn: Arn) returns (r: Result<Row, ChainError>)
      ensures r == Lookup(credentials, arn)
    {
      if arn !in credentials { return Err(NotFound); }
      if credentials[arn].secrets.Undecryptable? { return Err(DecryptionFailed); }
      return Ok(credentials[arn]);
    }

    method GetCredentialChainByPrincipalArn(target: Arn) returns (r: Result<Chain, ChainError>)
      requires limit >= 1
      ensures r == ColdWalk(credentials, limit, target)
    {
      var trustChain: seq<Arn> := [];
      var hops := 0;
      var assumedBy := target;
      var row: Row;
      while true
        invariant hops == |trustChain| < limit
        invariant ColdFrom(credentials, limit, trustChain, assumedBy) == ColdWalk(credentials, limit, target)
        decreases limit - hops
      {
        var found := GetCredentialByPrincipalArn(assumedBy);
        if found.Err? { return Err(found.error); }
        row := found.value;
        trustChain := trustChain + [assumedBy];
        hops := hops + 1;
        if Truthy(row.assumedBy) && hops >= limit { return Err(TooDeep); }
        if !Truthy(row.assumedBy) { break; }
        assumedBy := row.assumedBy.value;
      }
      if !Truthy(row.secrets.accessKeyId) || !Truthy(row.secrets.secretAccessKey) { return Err(NotValid); }
      if |trustChain| <= 1 { return Err(LongTermRefused); }
      var Secrets(accessKeyId, secretAccessKey, sessionToken) := row.secrets;
      return Ok(Chain(trustChain, AccessKeys(accessKeyId.value, secretAccessKey.value, sessionToken)));
    }

    method StoreCredential(arn: Arn, keys: AccessKeys)
      modifies this`credentials
      ensures credentials == WithKeys(old(credentials), arn, keys)
    {
      var token := if Truthy(keys.sessionToken) then keys.sessionToken else None;
      var secrets := Secrets(Some(keys.accessKeyId), Some(keys.secretAccessKey), token);
      if arn in credentials {
        credentials := credentials[arn := credentials[arn].(secrets := secrets)];
      } else {
        credentials := credentials[arn := Row(None, secrets)];
      }
    }

    method StoreCredentialRelationship(arn: Arn, assumedBy: Arn)
      modifies this`credentials
      ensures credentials == WithRelationship(old(credentials), arn, assumedBy)
    {
      if arn in credentials {
        credentials := credentials[arn := credentials[arn].(assumedBy := Some(assumedBy))];
      } else {
        credentials := credentials[arn := Row(Some(assumedBy), Secrets(None, None, None))];
      }
    }

    method RemoveCredential(arn: Arn)
      modifies this`credentials
      ensures credentials == old(credentials) - {arn}
    {
      credentials := credentials - {arn};
    }
  }

  class CredentialsCacheDAO {
    var entries: Entries

    constructor ()
      ensures entries == map[]
    {
      entries := map[];
    }

    /** Dead and unreadable entries are evicted on the way; no answer at this instant changes. */
    method GetCachedCredential(arn: Arn, now: int) returns (r: Option<AccessKeys>)
      modifies this`entries
      ensures r == if arn in Live(old(entries), now) then Some(Live(old(entries), now)[arn]) else None
      ensures r.Some? <==>
                && arn in old(entries) && old(entries)[arn].expiresAt > now
                && old(entries)[arn].accessKeyId.Plain? && old(entries)[arn].secretAccessKey.Plain?
                && !old(entries)[arn].sessionToken.Garbled?
      ensures r.Some? ==> Answers(old(entries)[arn], now, r.value)
      ensures Live(entries, now) == Live(old(entries), now)
      ensures forall q :: q in entries <==> q in old(entries) && (q != arn || r.Some?)
      ensures forall q :: q in entries ==> entries[q] == old(entries)[q]
    {
      if arn !in entries { return None; }
      var cached := entries[arn];
      r := None;
      if cached.expiresAt > now
         && cached.accessKeyId.Plain? && cached.secretAccessKey.Plain? && !cached.sessionToken.Garbled?
      {
        var token := if cached.sessionToken.Plain? then Some(cached.sessionToken.text) else None;
        r := Some(AccessKeys(cached.accessKeyId.text, cached.secretAccessKey.text, token));
      } else {
        entries := entries - {arn};
      }
    }

    method StoreCachedCredential(arn: Arn, keys: AccessKeys, expiresAt: int)
      modifies this`entries
      ensures entries == Put(old(entries), arn, keys, expiresAt)
      ensures if keys.sessionToken.Some? && keys.sessionToken.value != ""
              then
                && entries.Keys == old(entries).Keys + {arn}
                && HoldsSession(entries[arn], Session(keys, Some(expiresAt)))
                && forall q :: q in old(entries) && q != arn ==> entries[q] == old(entries)[q]
              else entries == old(entries)
    {
      if !Truthy(keys.sessionToken) { return; }
      entries := entries[arn := Entry(Plain(keys.accessKeyId), Plain(keys.secretAccessKey),
                                      Plain(keys.sessionToken.value), expiresAt)];
    }

    method Invalidate(arn: Arn)
      modifies this`entries
      ensures entries == old(entries) - {arn}
    {
      entries := entries - {arn};
    }
  }

  /** Entries went, none changed, and none that could be answered at `now` or later is among them. */
  ghost predicate OnlyEvicted(before: Entries, after: Entries, now: int) {
    && (forall q :: q in after ==> q in before && after[q] == before[q])
    && (forall q, t :: q in before && q !in after && now <= t ==> ReadEntry(before[q], t).None?)
  }

  lemma EvictsOnly(before: Entries, entries: Entries, after: Entries, arn: Arn, now: int)
    requires OnlyEvicted(before, entries, now)
    requires forall q :: q in after ==> q in entries && after[q] == entries[q]
    requires forall q :: q in entries && q !in after ==> q == arn && arn !in Live(entries, now)
    ensures OnlyEvicted(before, after, now)
    ensures forall t :: now <= t ==> Live(after, t) == Live(before, t)
  {
    forall q, t | q in before && q !in after && now <= t ensures ReadEntry(before[q], t).None? {
      if q in entries { assert ReadEntry(entries[q], now).None?; }
    }
  }

  datatype ResolveError = ChainRefused(error: ChainError) | StsRefused(message: string)

  class CredentialChainService {
    const dao: CredentialsDAO
    const cache: CredentialsCacheDAO

    constructor (dao: CredentialsDAO, cache: CredentialsCacheDAO)
      ensures this.dao == dao && this.cache == cache
    {
      this.dao := dao;
      this.cache := cache;
    }

    /** Each lookup in the cache reads the clock anew; what it evicts no later instant would have answered. */
    method GetCredentialChainToFirstCachedPrincipal(target: Arn, clock: nat -> int)
      returns (r: Result<Chain, ChainError>)
      requires dao.limit >= 1 && Advancing(clock)
      modifies cache
      ensures r == CachedWalkAt(dao.credentials, old(cache.entries), clock, dao.limit, target)
      ensures OnlyEvicted(old(cache.entries), cache.entries, clock(dao.limit))
    {
      var limit := dao.limit;
      var trustChain: seq<Arn> := [];
      var hops := 0;
      var assumedBy := target;
      var row: Row;
      ghost var before := cache.entries;
      while true
        invariant hops == |trustChain| < limit
        invariant OnlyEvicted(before, cache.entries, clock(hops))
        invariant CachedFromAt(dao.credentials, before, clock, limit, target, trustChain, assumedBy)
               == CachedWalkAt(dao.credentials, before, clock, limit, target)
        decreases limit - hops
      {
        trustChain := trustChain + [assumedBy];
        hops := hops + 1;
        assert clock(hops - 1) <= clock(hops) <= clock(limit);
        var atBoundary := hops >= limit;
        if assumedBy != target && !atBoundary {
          ghost var entries := cache.entries;
          var cached := cache.GetCachedCredential(assumedBy, clock(hops - 1));
          EvictsOnly(before, entries, cache.entries, assumedBy, clock(hops - 1));
          if cached.Some? { return Ok(Chain(trustChain, cached.value)); }
        }
        var found := dao.GetCredentialByPrincipalArn(assumedBy);
        if found.Err? { return Err(found.error); }
        row := found.value;
        if atBoundary && Truthy(row.assumedBy) { return Err(TooDeep); }
        if !Truthy(row.assumedBy) { break; }
        assumedBy := row.assumedBy.value;
      }
      if Truthy(row.secrets.accessKeyId) && Truthy(row.secrets.secretAccessKey) {
        if |trustChain| > 1 {
          var Secrets(accessKeyId, secretAccessKey, sessionToken) := row.secrets;
          return Ok(Chain(trustChain, AccessKeys(accessKeyId.value, secretAccessKey.value, sessionToken)));
        }
        return Err(LongTermRefused);
      }
      return Err(NotValid);
    }

    method ResolveLeafCredentials(target: Arn, sts: AssumeRole) returns (r: Result<AccessKeys, ResolveError>)
      requires dao.limit >= 1
      ensures r == match ColdWalk(dao.credentials, dao.limit, target)
                   case Err(e) => Err(ChainRefused(e))
                   case Ok(c) => match Fold(sts, c.arns, c.keys)
                                 case Err(m) => Err(StsRefused(m))
                                 case Ok(keys) => Ok(keys)
    {
      var chain := dao.GetCredentialChainByPrincipalArn(target);
      if chain.Err? { return Err(ChainRefused(chain.error)); }
      var walked := WalkToLeaf(sts, chain.value);
      return match walked case Err(m) => Err(StsRefused(m)) case Ok(keys) => Ok(keys);
    }
  }

  /** `LeafCredentialsWalker`: from the base's keys up to the target, one assumption at a time. */
  method WalkToLeaf(sts: AssumeRole, chain: Chain) returns (r: Result<AccessKeys, string>)
    ensures r == Fold(sts, chain.arns, chain.keys)
  {
    var credentials := chain.keys;
    var i := |chain.arns| - 2;
    while i >= 0
      invariant if |chain.arns| == 0 then i == -2 && credentials == chain.keys else -1 <= i < |chain.arns| - 1
      invariant |chain.arns| > 0 ==> Fold(sts, chain.arns[i + 1..], chain.keys) == Ok(credentials)
      decreases i
    {
      FoldStep(sts, chain, i);
      var assumed := sts(chain.arns[i], credentials);
      if assumed.Err? {
        FoldFailsUpwards(sts, chain.arns[..i], chain.arns[i..], chain.keys);
        assert chain.arns[..i] + chain.arns[i..] == chain.arns;
        return Err(assumed.error);
      }
      credentials := assumed.value.keys;
      i := i - 1;
    }
    if |chain.arns| > 0 {
      assert chain.arns[i + 1..] == chain.arns;
    }
    return Ok(credentials);
  }

  datatype HopStatus = BaseCredentials | Assumed | Failed(message: string)

  datatype ChainTestStep = ChainTestStep(arn: Arn, status: HopStatus)

  /** The report of a chain test once the hops down to `low` were considered: a hop is tried only
      while everything below it went through. */
  function Report(sts: AssumeRole, c: Chain, low: nat): seq<ChainTestStep>
    requires low < |c.arns|
    decreases |c.arns| - low
  {
    if low == |c.arns| - 1 then [ChainTestStep(c.arns[low], BaseCredentials)]
    else if Fold(sts, c.arns[low + 1..], c.keys).Err? then Report(sts, c, low + 1)
    else
      Report(sts, c, low + 1) + [ChainTestStep(c.arns[low], StatusOf(HopSession(sts, c, low)))]
  }

  function StatusOf(hop: Result<Session, string>): HopStatus {
    match hop
    case Ok(_) => Assumed
    case Err(message) => Failed(message)
  }

  /** The report lists the principals from the base upwards. It reaches the target with every hop
      assumed when the walk succeeds, and otherwise ends at the lowest hop STS refuses. */
  lemma {:induction false} ReportListsPrincipals(sts: AssumeRole, c: Chain, low: nat)
    requires low < |c.arns|
    ensures var steps := Report(sts, c, low);
            && 1 <= |steps| <= |c.arns| - low
            && steps[0] == ChainTestStep(c.arns[|c.arns| - 1], BaseCredentials)
            && (forall j :: 1 <= j < |steps| ==> steps[j].arn == c.arns[|c.arns| - 1 - j])
            && (forall j :: 1 <= j < |steps| - 1 ==> steps[j].status == Assumed)
            && (Fold(sts, c.arns[low..], c.keys).Ok? ==> |steps| == |c.arns| - low)
            && (Fold(sts, c.arns[low..], c.keys).Ok? && |steps| > 1 ==> steps[|steps| - 1].status == Assumed)
    decreases |c.arns| - low
  {
    if low < |c.arns| - 1 {
      ReportListsPrincipals(sts, c, low + 1);
      FoldStep(sts, c, low);
      if Fold(sts, c.arns[low + 1..], c.keys).Ok? {
        ReportStep(sts, c, low, Fold(sts, c.arns[low + 1..], c.keys).value);
      }
    }
  }

  lemma {:induction false} ReportNamesTheRefusedHop(sts: AssumeRole, c: Chain, low: nat)
    requires low < |c.arns| && Fold(sts, c.arns[low..], c.keys).Err?
    ensures var steps := Report(sts, c, low);
            var refused := |c.arns| - |steps|;
            && 0 <= refused < |c.arns| - 1
            && HopSession(sts, c, refused).Err?
            && Fold(sts, c.arns[refused + 1..], c.keys).Ok?
            && steps[|steps| - 1].status == Failed(Fold(sts, c.arns[low..], c.keys).error)
    decreases |c.arns| - low
  {
    FoldStep(sts, c, low);
    if Fold(sts, c.arns[low + 1..], c.keys).Err? {
      ReportNamesTheRefusedHop(sts, c, low + 1);
    } else {
      ReportListsPrincipals(sts, c, low + 1);
    }
  }

  lemma ReportStep(sts: AssumeRole, c: Chain, i: nat, caller: AccessKeys)
    requires i + 1 < |c.arns| && Fold(sts, c.arns[i + 1..], c.keys) == Ok(caller)
    ensures Report(sts, c, i) == Report(sts, c, i + 1) + [ChainTestStep(c.arns[i], StatusOf(sts(c.arns[i], caller)))]
    ensures Fold(sts, c.arns[i..], c.keys) ==
            match sts(c.arns[i], caller)
            case Err(e) => Err(e)
            case Ok(session) => Ok(session.keys)
  {
    FoldStep(sts, c, i);
  }

  lemma {:induction false} ReportStaysAfterRefusal(sts: AssumeRole, c: Chain, i: nat)
    requires i < |c.arns| && Fold(sts, c.arns[i..], c.keys).Err?
    ensures Report(sts, c, 0) == Report(sts, c, i) && Fold(sts, c.arns, c.keys).Err?
  {
    if i == 0 {
      assert c.arns[0..] == c.arns;
    } else {
      FoldStep(sts, c, i - 1);
      ReportStaysAfterRefusal(sts, c, i - 1);
    }
  }

  /** `ChainTestWalker`: the same walk, recording each hop and standing still after a failure. */
  method TestChain(sts: AssumeRole, chain: Chain) returns (success: bool, steps: seq<ChainTestStep>)
    requires |chain.arns| >= 1
    ensures success <==> Fold(sts, chain.arns, chain.keys).Ok?
    ensures steps == Report(sts, chain, 0)
  {
    var credentials := chain.keys;
    var failed := false;
    steps := [ChainTestStep(chain.arns[|chain.arns| - 1], BaseCredentials)];
    var i := |chain.arns| - 2;
    while i >= 0
      invariant -1 <= i < |chain.arns| - 1
      invariant failed ==> steps == Report(sts, chain, 0) && Fold(sts, chain.arns, chain.keys).Err?
      invariant !failed ==> steps == Report(sts, chain, i + 1)
      invariant !failed ==> Fold(sts, chain.arns[i + 1..], chain.keys) == Ok(credentials)
      decreases i
    {
      if !failed {
        var assumed := sts(chain.arns[i], credentials);
        ReportStep(sts, chain, i, credentials);
        steps := steps + [ChainTestStep(chain.arns[i], StatusOf(assumed))];
        if assumed.Ok? {
          credentials := assumed.value.keys;
        } else {
          failed := true;
          ReportStaysAfterRefusal(sts, chain, i);
        }
      }
      i := i - 1;
    }
    assert chain.arns[0..] == chain.arns;
    success := !failed;
  }

  /** The hop at `i` goes through: no outage there, and STS grants it. */
  predicate Through(sts: AssumeRole, c: Chain, outage: int, i: nat)
    requires i < |c.arns|
  {
    outage != i && HopSession(sts, c, i).Ok?
  }

  /** How far a refresh gets from `low`, the last hop that went through: down to 1, or to the hop above the
      first one that STS refuses or that `outage` cuts off. */
  function Reached(sts: AssumeRole, c: Chain, outage: int, low: nat): (end: nat)
    requires 1 <= low < |c.arns|
    ensures 1 <= end <= low
  {
    if low == 1 || !Through(sts, c, outage, low - 1) then low else Reached(sts, c, outage, low - 1)
  }

  /** A refresh stops at the first obstacle below it and nowhere else. */
  lemma {:induction false} ReachedIsFirstObstacle(sts: AssumeRole, c: Chain, outage: int, low: nat, end: nat)
    requires 1 <= low < |c.arns|
    ensures end == Reached(sts, c, outage, low) <==>
            && 1 <= end <= low
            && (forall i: nat :: end <= i < low ==> Through(sts, c, outage, i))
            && (end > 1 ==> !Through(sts, c, outage, end - 1))
  {
    if low > 1 && Through(sts, c, outage, low - 1) {
      ReachedIsFirstObstacle(sts, c, outage, low - 1, end);
    }
  }

  lemma {:induction false} ReachedFolds(sts: AssumeRole, c: Chain, outage: int, low: nat)
    requires 1 <= low < |c.arns| && Fold(sts, c.arns[low..], c.keys).Ok?
    ensures Fold(sts, c.arns[Reached(sts, c, outage, low)..], c.keys).Ok?
  {
    if low > 1 && Through(sts, c, outage, low - 1) {
      FoldStep(sts, c, low - 1);
      ReachedFolds(sts, c, outage, low - 1);
    }
  }

  datatype RefreshError = Unresolved(error: ChainError) | HopFailed

  /** The whole effect of refreshing one principal. A base principal has nothing to warm and is skipped;
      a failure part way keeps what was already stored. */
  function Refreshed(sts: AssumeRole, resolved: Result<Chain, ChainError>, outage: int, entries: Entries)
    : (Result<Option<nat>, RefreshError>, Entries)
    requires resolved.Ok? ==> |resolved.value.arns| >= 2
  {
    match resolved
    case Err(e) => (if e == LongTermRefused then Ok(None) else Err(Unresolved(e)), entries)
    case Ok(c) =>
      var end := Reached(sts, c, outage, |c.arns| - 1);
      (if end == 1 then Ok(Some(WarmedCount(sts, c, 1))) else Err(HopFailed), Warmed(sts, entries, c, end))
  }

  /** Every inner hop is reachable and granted. */
  ghost predicate AllThrough(sts: AssumeRole, c: Chain, outage: int) {
    !(1 <= outage < |c.arns| - 1) && forall i: nat :: 1 <= i < |c.arns| - 1 ==> HopSession(sts, c, i).Ok?
  }

  /** What refreshing a principal reports. It is skipped exactly when it is itself a base with keys; any other
      refusal of its chain fails it, and so does an inner hop that is cut off or refused. Otherwise it reports
      how many inner hops were cached. */
  lemma RefreshReports(sts: AssumeRole, store: Store, limit: nat, target: Arn, outage: int, entries: Entries)
    requires limit >= 1
    ensures var resolved := ColdWalk(store, limit, target);
            && (resolved == Err(LongTermRefused) <==> IsBase(store, target) && HasKeys(store[target].secrets))
            && Refreshed(sts, resolved, outage, entries).0 ==
               match resolved
               case Err(e) => if e == LongTermRefused then Ok(None) else Err(Unresolved(e))
               case Ok(c) => if AllThrough(sts, c, outage) then Ok(Some(|CachedHops(sts, c, 1)|)) else Err(HopFailed)
  {
    SkippedIsBase(store, limit, target);
    if ColdWalk(store, limit, target).Ok? {
      var c := ColdWalk(store, limit, target).value;
      ReachesTop(sts, c, outage);
      WarmedCountCounts(sts, c, 1);
    }
  }

  lemma ReachesTop(sts: AssumeRole, c: Chain, outage: int)
    requires |c.arns| >= 2
    ensures Reached(sts, c, outage, |c.arns| - 1) == 1 <==> AllThrough(sts, c, outage)
  {
    ReachedIsFirstObstacle(sts, c, outage, |c.arns| - 1, 1);
    if 1 <= outage < |c.arns| - 1 { assert !Through(sts, c, outage, outage); }
    if AllThrough(sts, c, outage) {
      forall i: nat | 1 <= i < |c.arns| - 1 ensures Through(sts, c, outage, i) {
        assert HopSession(sts, c, i).Ok?;
      }
    }
    if Reached(sts, c, outage, |c.arns| - 1) == 1 {
      forall i: nat | 1 <= i < |c.arns| - 1 ensures HopSession(sts, c, i).Ok? {
        assert Through(sts, c, outage, i);
      }
    }
  }

  lemma SkippedIsBase(store: Store, limit: nat, target: Arn)
    requires limit >= 1
    ensures ColdWalk(store, limit, target) == Err(LongTermRefused)
        <==> IsBase(store, target) && HasKeys(store[target].secrets)
  {
    ColdWalkDecides(store, limit, target, Err(LongTermRefused));
    if IsBase(store, target) && HasKeys(store[target].secrets) {
      assert IsPath(store, [target]) && Verdict(store, limit, [target], Err(LongTermRefused));
    }
  }

  /** Both halves of a key pair, neither empty. */
  predicate HasKeys(s: Secrets) {
    && s.Secrets?
    && s.accessKeyId.Some? && s.accessKeyId.value != "" && s.secretAccessKey.Some? && s.secretAccessKey.value != ""
  }

  /** One principal of the scheduled refresh. `outage` is the hop at which STS or the cache store is
      unreachable, or a number that is no hop. */
  method RefreshPrincipal(chains: CredentialChainService, sts: AssumeRole, target: Arn, outage: int)
    returns (r: Result<Option<nat>, RefreshError>)
    requires chains.dao.limit >= 1
    modifies chains.cache
    ensures (r, chains.cache.entries)
         == Refreshed(sts, ColdWalk(chains.dao.credentials, chains.dao.limit, target), outage,
                      old(chains.cache.entries))
  {
    var resolved := chains.dao.GetCredentialChainByPrincipalArn(target);
    if resolved.Err? {
      if resolved.error.LongTermRefused? { return Ok(None); }
      return Err(Unresolved(resolved.error));
    }
    var chain := resolved.value;
    var credential := chain.keys;
    var refreshed := 0;
    var i := |chain.arns| - 2;
    while i > 0
      invariant 0 <= i <= |chain.arns| - 2
      invariant Fold(sts, chain.arns[i + 1..], chain.keys) == Ok(credential)
      invariant chains.cache.entries == Warmed(sts, old(chains.cache.entries), chain, i + 1)
      invariant refreshed == WarmedCount(sts, chain, i + 1)
      invariant Reached(sts, chain, outage, |chain.arns| - 1) == Reached(sts, chain, outage, i + 1)
    {
      if i == outage { return Err(HopFailed); }
      FoldStep(sts, chain, i);
      var assumed := sts(chain.arns[i], credential);
      if assumed.Err? { return Err(HopFailed); }
      var session := assumed.value;
      if Truthy(session.keys.sessionToken) && session.expiration.Some? {
        chains.cache.StoreCachedCredential(chain.arns[i], session.keys, session.expiration.value);
        refreshed := refreshed + 1;
      }
      credential := session.keys;
      i := i - 1;
    }
    return Ok(Some(refreshed));
  }

  /** The principal-ARN shape: `arn:aws:iam::`, twelve digits, `:role/` or `:user/`, and a name of at
      least one character without a line terminator. */
  predicate IsPrincipalArn(s: string) {
    && |s| > 31
    && s[..13] == "arn:aws:iam::"
    && (forall i :: 13 <= i < 25 ==> '0' <= s[i] <= '9')
    && (s[25..31] == ":role/" || s[25..31] == ":user/")
    && (forall i :: 31 <= i < |s| ==> s[i] !in {'\n', '\r', '\U{2028}', '\U{2029}'})
  }

  /** Put together from its parts. */
  ghost predicate IsComposedArn(s: string, account: string, kind: string, name: string) {
    && s == "arn:aws:iam::" + account + kind + name
    && |account| == 12 && (forall i :: 0 <= i < 12 ==> account[i] in "0123456789")
    && (kind == ":role/" || kind == ":user/")
    && |name| >= 1 && forall i :: 0 <= i < |name| ==> name[i] !in "\n\r\U{2028}\U{2029}"
  }

  lemma PartsOf(account: string, kind: string, name: string)
    requires |account| == 12 && |kind| == 6
    ensures var s := "arn:aws:iam::" + account + kind + name;
            s[..13] == "arn:aws:iam::" && s[13..25] == account && s[25..31] == kind && s[31..] == name
  {}

  /** A principal is an account's role or user by some name, and every such string is one. */
  lemma PrincipalArnIsComposed(s: string)
    ensures IsPrincipalArn(s) <==> exists account, kind, name :: IsComposedArn(s, account, kind, name)
  {
    if IsPrincipalArn(s) {
      assert s == s[..13] + s[13..25] + s[25..31] + s[31..];
      assert IsComposedArn(s, s[13..25], s[25..31], s[31..]);
    }
    if account, kind, name :| IsComposedArn(s, account, kind, name) {
      PartsOf(account, kind, name);
      forall i | 13 <= i < 25 ensures '0' <= s[i] <= '9' { assert s[i] == s[13..25][i - 13] == account[i - 13]; }
      forall i | 31 <= i < |s| ensures s[i] !in {'\n', '\r', '\U{2028}', '\U{2029}'} {
        assert s[i] == s[31..][i - 31] == name[i - 31];
      }
    }
  }

  class CredentialCacheConfigDAO {
    var lastCachedAt: map<Arn, int>

    constructor ()
      ensures lastCachedAt == map[]
    {
      lastCachedAt := map[];
    }

    method Create(arn: Arn)
      modifies this
      ensures lastCachedAt == if arn in old(lastCachedAt) then old(lastCachedAt) else old(lastCachedAt)[arn := 0]
    {
      if arn !in lastCachedAt { lastCachedAt := lastCachedAt[arn := 0]; }
    }

    method Delete(arn: Arn)
      modifies this
      ensures lastCachedAt == old(lastCachedAt) - {arn}
    {
      lastCachedAt := lastCachedAt - {arn};
    }

    /** An update touches a tracked row only. */
    method UpdateLastCachedTime(arn: Arn, timestamp: int)
      modifies this
      ensures lastCachedAt
              == if arn in old(lastCachedAt) then old(lastCachedAt)[arn := timestamp] else old(lastCachedAt)
    {
      if arn in lastCachedAt { lastCachedAt := lastCachedAt[arn := timestamp]; }
    }
  }

  class CredentialStoreService {
    const dao: CredentialsDAO
    const cache: CredentialsCacheDAO?
    const config: CredentialCacheConfigDAO

    constructor (dao: CredentialsDAO, cache: CredentialsCacheDAO?, config: CredentialCacheConfigDAO)
      ensures this.dao == dao && this.cache == cache && this.config == config
    {
      this.dao := dao;
      this.cache := cache;
      this.config := config;
    }

    /** Keys go in without registering the principal for pre-warm: it is the base of a chain. */
    method StoreCredential(arn: Arn, keys: AccessKeys) returns (accepted: bool)
      modifies dao
      ensures accepted <==> arn != "" && keys.accessKeyId != "" && keys.secretAccessKey != ""
      ensures dao.credentials == if accepted then WithKeys(old(dao.credentials), arn, keys) else old(dao.credentials)
    {
      if arn == "" || keys.accessKeyId == "" || keys.secretAccessKey == "" { return false; }
      dao.StoreCredential(arn, keys);
      return true;
    }

    /** Rewiring a principal drops its cache entry and tracks it for refresh; a malformed request
        changes nothing. Only the written principal's own entry is dropped. */
    method StoreCredentialRelationship(arn: Arn, assumedBy: Arn) returns (accepted: bool)
      modifies dao, config, if cache == null then {} else {cache}
      ensures accepted <==> IsPrincipalArn(arn) && IsPrincipalArn(assumedBy)
      ensures dao.credentials
              == if accepted then WithRelationship(old(dao.credentials), arn, assumedBy) else old(dao.credentials)
      ensures config.lastCachedAt ==
              if accepted && arn !in old(config.lastCachedAt) then old(config.lastCachedAt)[arn := 0]
              else old(config.lastCachedAt)
      ensures cache != null ==> cache.entries == if accepted then old(cache.entries) - {arn} else old(cache.entries)
    {
      if !IsPrincipalArn(arn) || !IsPrincipalArn(assumedBy) { return false; }
      dao.StoreCredentialRelationship(arn, assumedBy);
      if cache != null { cache.Invalidate(arn); }
      config.Create(arn);
      return true;
    }

    method RemoveCredential(arn: Arn) returns (accepted: bool)
      modifies dao, config, if cache == null then {} else {cache}
      ensures accepted <==> IsPrincipalArn(arn)
      ensures dao.credentials == if accepted then old(dao.credentials) - {arn} else old(dao.credentials)
      ensures config.lastCachedAt == if accepted then old(config.lastCachedAt) - {arn} else old(config.lastCachedAt)
      ensures cache != null ==> cache.entries == if accepted then old(cache.entries) - {arn} else old(cache.entries)
    {
      if !IsPrincipalArn(arn) { return false; }
      dao.RemoveCredential(arn);
      if cache != null { cache.Invalidate(arn); }
      config.Delete(arn);
      return true;
    }
  }
}
