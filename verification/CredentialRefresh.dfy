/** The scheduled refresh over a whole batch: warm what can be warmed, stamp every principal. */
module CredentialRefresh {
  import opened Prelude
  import opened CredentialModel
  import opened ChainWalks
  import opened RoleSessions
  import opened CredentialCache
  import opened CredentialServices
  import opened WorkQueue

  /** What happens outside the model: the hop at which STS or the cache store fails for a principal, and
      whether its stamp can be written, and when. */
  datatype Weather = Weather(outage: Arn -> int, stampWritten: Arn -> bool, stampedAt: Arn -> int)

  /** The cache and the counters of a batch. */
  datatype Tally = Tally(entries: Entries, refreshed: nat, failed: nat, skipped: nat)

  /** One principal more. A principal counts as failed once, whether its walk or its stamp failed. */
  function Counted(t: Tally, r: Result<Option<nat>, RefreshError>, entries: Entries, stamped: bool): Tally {
    Tally(entries,
          t.refreshed + (if r.Ok? && r.value.Some? then r.value.value else 0),
          t.failed + (if r.Err? || !stamped then 1 else 0),
          t.skipped + (if r == Ok(None) then 1 else 0))
  }

  function RefreshedNext(sts: AssumeRole, store: Store, limit: nat, t: Tally, p: Arn, w: Weather): Tally
    requires limit >= 1
  {
    var (r, entries) := Refreshed(sts, ColdWalk(store, limit, p), w.outage(p), t.entries);
    Counted(t, r, entries, w.stampWritten(p))
  }

  function RefreshedBatch(sts: AssumeRole, store: Store, limit: nat, entries: Entries, batch: seq<Arn>,
                          w: Weather): Tally
    requires limit >= 1
  {
    if |batch| == 0 then Tally(entries, 0, 0, 0)
    else RefreshedNext(sts, store, limit, RefreshedBatch(sts, store, limit, entries, batch[..|batch| - 1], w),
                       batch[|batch| - 1], w)
  }

  /** The stamps a batch writes: one per principal, unless the write itself fails. */
  function StampsOf(batch: seq<Arn>, w: Weather): Clocks {
    map p | p in batch && w.stampWritten(p) :: w.stampedAt(p)
  }

  lemma StampNone(clocks: Clocks, cutoff: int, w: Weather)
    ensures Stamped(clocks, Tick(cutoff, [], StampsOf([], w))) == clocks
  {}

  lemma StampOneMore(clocks: Clocks, cutoff: int, batch: seq<Arn>, i: nat, w: Weather)
    requires i < |batch| && batch[i] in clocks
    ensures var before := Stamped(clocks, Tick(cutoff, batch[..i], StampsOf(batch[..i], w)));
            var after := Stamped(clocks, Tick(cutoff, batch[..i + 1], StampsOf(batch[..i + 1], w)));
            after == if w.stampWritten(batch[i]) then before[batch[i] := w.stampedAt(batch[i])] else before
  {
    assert batch[..i + 1] == batch[..i] + [batch[i]];
  }

  /** `handleScheduledTask`: take the due batch, warm each principal's chain, stamp each principal. One
      unresolvable principal neither stops the batch nor keeps its place at the head of the queue, because
      the stamp follows every outcome: a run is one tick of the queue. */
  method HandleScheduledTask(chains: CredentialChainService, config: CredentialCacheConfigDAO, sts: AssumeRole,
                             now: int, intervalMinutes: nat, batchSize: int, w: Weather)
    returns (refreshed: nat, failed: nat, skipped: nat, ghost t: Tick)
    requires chains.dao.limit >= 1
    modifies chains.cache, config
    ensures t.cutoff == now - 60 * intervalMinutes && t.stamps == StampsOf(t.batch, w)
    ensures IsBatch(old(config.lastCachedAt), t.cutoff, SafeBatchSize(batchSize), t.batch)
    ensures (forall p :: w.stampWritten(p) && w.stampedAt(p) >= now) ==>
            ValidTick(old(config.lastCachedAt), SafeBatchSize(batchSize), t)
    ensures config.lastCachedAt == Stamped(old(config.lastCachedAt), t)
    ensures Tally(chains.cache.entries, refreshed, failed, skipped)
         == RefreshedBatch(sts, chains.dao.credentials, chains.dao.limit, old(chains.cache.entries), t.batch, w)
  {
    var cutoff := now - 60 * intervalMinutes;
    var batch := SelectDue(config.lastCachedAt, cutoff, batchSize);
    t := Tick(cutoff, batch, StampsOf(batch, w));
    forall i | 0 <= i < |batch| ensures batch[i] in config.lastCachedAt {
      assert Due(config.lastCachedAt, cutoff, batch[i]);
    }
    refreshed, failed, skipped := RunBatch(chains, config, sts, batch, cutoff, w);
  }

  /** The loop over the batch. */
  method RunBatch(chains: CredentialChainService, config: CredentialCacheConfigDAO, sts: AssumeRole,
                  batch: seq<Arn>, ghost cutoff: int, w: Weather)
    returns (refreshed: nat, failed: nat, skipped: nat)
    requires chains.dao.limit >= 1
    requires forall i :: 0 <= i < |batch| ==> batch[i] in config.lastCachedAt
    modifies chains.cache, config
    ensures config.lastCachedAt == Stamped(old(config.lastCachedAt), Tick(cutoff, batch, StampsOf(batch, w)))
    ensures Tally(chains.cache.entries, refreshed, failed, skipped)
         == RefreshedBatch(sts, chains.dao.credentials, chains.dao.limit, old(chains.cache.entries), batch, w)
  {
    refreshed, failed, skipped := 0, 0, 0;
    ghost var before := config.lastCachedAt;
    StampNone(before, cutoff, w);
    for i := 0 to |batch|
      invariant config.lastCachedAt == Stamped(before, Tick(cutoff, batch[..i], StampsOf(batch[..i], w)))
      invariant Tally(chains.cache.entries, refreshed, failed, skipped)
             == RefreshedBatch(sts, chains.dao.credentials, chains.dao.limit, old(chains.cache.entries), batch[..i], w)
    {
      assert batch[..i + 1][..i] == batch[..i];
      StampOneMore(before, cutoff, batch, i, w);
      refreshed, failed, skipped := RefreshAndStamp(chains, config, sts, batch[i], w, refreshed, failed, skipped);
    }
    assert batch[..|batch|] == batch;
  }

  /** One round of the loop, from the counters before it to the counters after it. */
  method RefreshAndStamp(chains: CredentialChainService, config: CredentialCacheConfigDAO, sts: AssumeRole, p: Arn,
                         w: Weather,
                         refreshedBefore: nat, failedBefore: nat, skippedBefore: nat)
    returns (refreshed: nat, failed: nat, skipped: nat)
    requires chains.dao.limit >= 1 && p in config.lastCachedAt
    modifies chains.cache, config
    ensures config.lastCachedAt
            == if w.stampWritten(p) then old(config.lastCachedAt)[p := w.stampedAt(p)] else old(config.lastCachedAt)
    ensures Tally(chains.cache.entries, refreshed, failed, skipped)
         == RefreshedNext(sts, chains.dao.credentials, chains.dao.limit,
                          Tally(old(chains.cache.entries), refreshedBefore, failedBefore, skippedBefore), p, w)
  {
    var r := RefreshPrincipal(chains, sts, p, w.outage(p));
    refreshed, failed, skipped := CountAndStamp(config, r, p, w.stampedAt(p), w.stampWritten(p), chains.cache.entries,
                                                refreshedBefore, failedBefore, skippedBefore);
  }

  method CountAndStamp(config: CredentialCacheConfigDAO, r: Result<Option<nat>, RefreshError>, p: Arn, at: int,
                       stampWritten: bool,
                       ghost entries: Entries, refreshedBefore: nat, failedBefore: nat, skippedBefore: nat)
    returns (refreshed: nat, failed: nat, skipped: nat)
    requires p in config.lastCachedAt
    modifies config
    ensures config.lastCachedAt == if stampWritten then old(config.lastCachedAt)[p := at] else old(config.lastCachedAt)
    ensures forall before: Tally ::
              before.refreshed == refreshedBefore && before.failed == failedBefore && before.skipped == skippedBefore
              ==> Tally(entries, refreshed, failed, skipped) == Counted(before, r, entries, stampWritten)
  {
    refreshed, failed, skipped := refreshedBefore, failedBefore, skippedBefore;
    match r {
      case Err(_) => failed := failed + 1;
      case Ok(None) => skipped := skipped + 1;
      case Ok(Some(n)) => refreshed := refreshed + n;
    }
    if stampWritten {
      config.UpdateLastCachedTime(p, at);
    } else if r.Ok? {
      failed := failed + 1;
    }
  }

  /* ----- what the counters say ----- */

  /** What refreshing a principal reports; the cache it starts from makes no difference. */
  function Report(sts: AssumeRole, store: Store, limit: nat, p: Arn, w: Weather): Result<Option<nat>, RefreshError>
    requires limit >= 1
  {
    Refreshed(sts, ColdWalk(store, limit, p), w.outage(p), map[]).0
  }

  predicate CountsFailed(sts: AssumeRole, store: Store, limit: nat, p: Arn, w: Weather)
    requires limit >= 1
  {
    Report(sts, store, limit, p, w).Err? || !w.stampWritten(p)
  }

  /** The positions of a batch whose principal satisfies `p`. */
  ghost function Where(batch: seq<Arn>, p: Arn -> bool): set<int> {
    set i | 0 <= i < |batch| && p(batch[i])
  }

  /** How many hops were cached for a principal whose refresh went through. */
  function Warmings(sts: AssumeRole, store: Store, limit: nat, p: Arn, w: Weather): nat
    requires limit >= 1
  {
    match Report(sts, store, limit, p, w)
    case Ok(Some(n)) => n
    case _ => 0
  }

  function Sum(batch: seq<Arn>, f: Arn -> nat): nat {
    if |batch| == 0 then 0 else Sum(batch[..|batch| - 1], f) + f(batch[|batch| - 1])
  }

  lemma WhereSnoc(batch: seq<Arn>, p: Arn -> bool)
    requires |batch| > 0
    ensures |Where(batch, p)| == |Where(batch[..|batch| - 1], p)| + (if p(batch[|batch| - 1]) then 1 else 0)
  {
    var n := |batch| - 1;
    assert Where(batch, p) == Where(batch[..n], p) + (if p(batch[n]) then {n} else {});
  }

  lemma NextCounts(sts: AssumeRole, store: Store, limit: nat, t: Tally, p: Arn, w: Weather)
    requires limit >= 1
    ensures var after := RefreshedNext(sts, store, limit, t, p, w);
            && after.failed == t.failed + (if CountsFailed(sts, store, limit, p, w) then 1 else 0)
            && after.skipped == t.skipped + (if Report(sts, store, limit, p, w) == Ok(None) then 1 else 0)
            && after.refreshed == t.refreshed + Warmings(sts, store, limit, p, w)
  {}

  /** The counters of a batch count its principals: skipped are those that report it, failed those that report
      an error or could not be stamped, each once, whatever else happened in the batch; and what was refreshed
      adds up. */
  lemma {:induction false} CountersCount(sts: AssumeRole, store: Store, limit: nat, entries: Entries, batch: seq<Arn>,
                                         w: Weather)
    requires limit >= 1
    ensures var t := RefreshedBatch(sts, store, limit, entries, batch, w);
            && t.failed == |Where(batch, p => CountsFailed(sts, store, limit, p, w))|
            && t.refreshed == Sum(batch, p => Warmings(sts, store, limit, p, w))
            && t.skipped == |Where(batch, p => Report(sts, store, limit, p, w) == Ok(None))|
  {
    if |batch| > 0 {
      var n := |batch| - 1;
      CountersCount(sts, store, limit, entries, batch[..n], w);
      NextCounts(sts, store, limit, RefreshedBatch(sts, store, limit, entries, batch[..n], w), batch[n], w);
      WhereSnoc(batch, p => CountsFailed(sts, store, limit, p, w));
      WhereSnoc(batch, p => Report(sts, store, limit, p, w) == Ok(None));
    }
  }

  /* ----- what a batch leaves in the cache ----- */

  /** An entry a refresh may write: for an inner hop of a chain the cold walk accepts, holding the session STS
      grants there, which is what walking that chain up to the hop yields. */
  ghost predicate RefreshedEntry(sts: AssumeRole, store: Store, limit: nat, q: Arn, e: Entry) {
    exists target, c, i ::
      && TrueChain(store, target, c) && |c.arns| <= limit
      && 1 <= i < |c.arns| - 1 && c.arns[i] == q
      && HopSession(sts, c, i).Ok? && HoldsSession(e, HopSession(sts, c, i).value)
      && Fold(sts, c.arns[i..], c.keys) == Ok(HopSession(sts, c, i).value.keys)
  }

  lemma RefreshWritesRefreshedEntries(sts: AssumeRole, store: Store, limit: nat, entries: Entries, target: Arn,
                                      outage: int, q: Arn)
    requires limit >= 1
    requires q in Refreshed(sts, ColdWalk(store, limit, target), outage, entries).1
    ensures var after := Refreshed(sts, ColdWalk(store, limit, target), outage, entries).1;
            (q in entries && after[q] == entries[q]) || RefreshedEntry(sts, store, limit, q, after[q])
  {
    var resolved := ColdWalk(store, limit, target);
    if resolved.Ok? {
      var c := resolved.value;
      ColdWalkAccepts(store, limit, target, c);
      assert |c.arns[|c.arns| - 1..]| == 1;
      ReachedFolds(sts, c, outage, |c.arns| - 1);
      WarmedHoldsFolds(sts, entries, c, Reached(sts, c, outage, |c.arns| - 1), q);
    }
  }

  /** Whatever fails in it, a batch adds nothing to the cache but entries a refresh may write. */
  lemma {:induction false} BatchWritesRefreshedEntries(sts: AssumeRole, store: Store, limit: nat, entries: Entries,
                                                       batch: seq<Arn>, w: Weather, q: Arn)
    requires limit >= 1 && q in RefreshedBatch(sts, store, limit, entries, batch, w).entries
    ensures var after := RefreshedBatch(sts, store, limit, entries, batch, w).entries;
            (q in entries && after[q] == entries[q]) || RefreshedEntry(sts, store, limit, q, after[q])
  {
    if |batch| > 0 {
      var n := |batch| - 1;
      var before := RefreshedBatch(sts, store, limit, entries, batch[..n], w).entries;
      RefreshWritesRefreshedEntries(sts, store, limit, before, batch[n], w.outage(batch[n]), q);
      if q in before { BatchWritesRefreshedEntries(sts, store, limit, entries, batch[..n], w, q); }
    }
  }
}
