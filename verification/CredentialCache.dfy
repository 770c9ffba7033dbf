/** Entries of the credential cache: what is readable, and what storing a session writes. */
module CredentialCache {
  import opened Prelude
  import opened CredentialModel
  import opened ChainWalks
  import opened RoleSessions

  /** One encrypted field: missing, readable, or present but unreadable under the current keys. */
  datatype Field = Missing | Plain(text: string) | Garbled

  datatype Entry = Entry(accessKeyId: Field, secretAccessKey: Field, sessionToken: Field, expiresAt: int)

  type Entries = map<Arn, Entry>

  /** The credentials an entry answers with at `now`, if any. A key pair is mandatory, a token is not,
      and a token that is present but unreadable spoils the entry. */
  function ReadEntry(e: Entry, now: int): Option<AccessKeys> {
    if e.expiresAt <= now then None
    else if !e.accessKeyId.Plain? || !e.secretAccessKey.Plain? || e.sessionToken.Garbled? then None
    else Some(AccessKeys(e.accessKeyId.text, e.secretAccessKey.text,
                         if e.sessionToken.Plain? then Some(e.sessionToken.text) else None))
  }

  function Live(entries: Entries, now: int): LiveView {
    map a | a in entries && ReadEntry(entries[a], now).Some? :: ReadEntry(entries[a], now).value
  }

  /** The fields of an entry that still answers at `now`, and the credentials they spell. */
  predicate Answers(e: Entry, now: int, keys: AccessKeys) {
    && now < e.expiresAt
    && e.accessKeyId == Plain(keys.accessKeyId)
    && e.secretAccessKey == Plain(keys.secretAccessKey)
    && e.sessionToken == (if keys.sessionToken.Some? then Plain(keys.sessionToken.value) else Missing)
  }

  /** What is live: exactly the entries that have not expired and whose fields can all be read, and each
      answers with its own fields. */
  lemma LiveMeans(entries: Entries, now: int, q: Arn)
    ensures q in Live(entries, now) <==>
              && q in entries && entries[q].expiresAt > now
              && entries[q].accessKeyId.Plain? && entries[q].secretAccessKey.Plain? && !entries[q].sessionToken.Garbled?
    ensures q in Live(entries, now) ==> Answers(entries[q], now, Live(entries, now)[q])
  {}

  /** Storing refuses credentials without a session token. */
  function Put(entries: Entries, arn: Arn, keys: AccessKeys, expiresAt: int): Entries {
    if !Truthy(keys.sessionToken) then entries
    else entries[arn := Entry(Plain(keys.accessKeyId), Plain(keys.secretAccessKey), Plain(keys.sessionToken.value),
                              expiresAt)]
  }

  /** A stored session is served as it was stored until the instant it expires, and not from then on. */
  lemma StoredIsServedUntilExpiry(entries: Entries, arn: Arn, keys: AccessKeys, expiresAt: int, now: int)
    requires Truthy(keys.sessionToken)
    ensures var live := Live(Put(entries, arn, keys, expiresAt), now);
            && (arn in live <==> now < expiresAt)
            && (arn in live ==> live[arn] == keys)
            && (forall q :: q != arn ==> (q in live <==> q in Live(entries, now)))
            && (forall q :: q != arn && q in live ==> live[q] == Live(entries, now)[q])
  {}

  /** Caching the session of one hop: both the token and the expiration have to be there. */
  function PutSession(entries: Entries, arn: Arn, s: Session): Entries {
    if Truthy(s.keys.sessionToken) && s.expiration.Some? then Put(entries, arn, s.keys, s.expiration.value) else entries
  }

  predicate Cacheable(r: Result<Session, string>) {
    r.Ok? && Truthy(r.value.keys.sessionToken) && r.value.expiration.Some?
  }

  /** The cache after the inner hops of `c` from `|c.arns| - 2` down to `low` were assumed and stored. */
  function Warmed(sts: AssumeRole, entries: Entries, c: Chain, low: nat): Entries
    requires low < |c.arns|
    decreases |c.arns| - low
  {
    if low == |c.arns| - 1 then entries
    else
      match HopSession(sts, c, low)
      case Err(_) => Warmed(sts, entries, c, low + 1)
      case Ok(session) => PutSession(Warmed(sts, entries, c, low + 1), c.arns[low], session)
  }

  /** How many of those hops left an entry. */
  function WarmedCount(sts: AssumeRole, c: Chain, low: nat): nat
    requires low < |c.arns|
    decreases |c.arns| - low
  {
    if low == |c.arns| - 1 then 0
    else WarmedCount(sts, c, low + 1) + (if Cacheable(HopSession(sts, c, low)) then 1 else 0)
  }

  /* ----- lookups that each read the clock ----- */

  /** The clock never runs backwards; the `k`-th lookup reads `clock(k)`. */
  ghost predicate Advancing(clock: nat -> int) {
    forall i: nat, j: nat :: i <= j ==> clock(i) <= clock(j)
  }

  lemma DeadStaysDead(entries: Entries, clock: nat -> int, i: nat, j: nat, q: Arn)
    requires Advancing(clock) && i <= j && q !in Live(entries, clock(i))
    ensures q !in Live(entries, clock(j))
  {
    assert clock(i) <= clock(j);
  }

  /** The cached walk whose round `k` looks into the cache at `clock(k)`. */
  function CachedFromAt(store: Store, entries: Entries, clock: nat -> int, limit: nat, target: Arn, visited: seq<Arn>,
                        at: Arn): (r: Result<Chain, ChainError>)
    requires |visited| < limit
    ensures r.Ok? ==> |visited| < |r.value.arns|
    decreases limit - |visited|
  {
    var arns := visited + [at];
    var live := Live(entries, clock(|visited|));
    if at != target && |arns| < limit && at in live then Ok(Chain(arns, live[at]))
    else
      match Lookup(store, at)
      case Err(e) => Err(e)
      case Ok(row) =>
        match NextHop(row)
        case None => Finish(row, arns)
        case Some(next) =>
          if |arns| >= limit then Err(TooDeep)
          else CachedFromAt(store, entries, clock, limit, target, arns, next)
  }

  function CachedWalkAt(store: Store, entries: Entries, clock: nat -> int, limit: nat, target: Arn)
    : (r: Result<Chain, ChainError>)
    requires limit >= 1
    ensures r.Ok? ==> |r.value.arns| > 0
  {
    CachedFromAt(store, entries, clock, limit, target, [], target)
  }

  lemma {:induction false} FromAtIsFrom(store: Store, entries: Entries, clock: nat -> int, limit: nat, target: Arn,
                                        visited: seq<Arn>, at: Arn) returns (k: nat)
    requires |visited| < limit && Advancing(clock)
    ensures k >= |visited|
    ensures CachedFromAt(store, entries, clock, limit, target, visited, at)
         == CachedFrom(store, Live(entries, clock(k)), limit, target, visited, at)
    decreases limit - |visited|
  {
    k := |visited|;
    var arns := visited + [at];
    if at == target || |arns| >= limit || at !in Live(entries, clock(k)) {
      if Lookup(store, at).Ok? && NextHop(Lookup(store, at).value).Some? && |arns| < limit {
        k := FromAtIsFrom(store, entries, clock, limit, target, arns, NextHop(Lookup(store, at).value).value);
        if at !in Live(entries, clock(|visited|)) { DeadStaysDead(entries, clock, |visited|, k, at); }
      }
    }
  }

  /** While the clock advances during a walk, the walk still answers what it would answer at one instant, that
      of its last lookup: what it passed over was dead already and stays so. */
  lemma AdvancingWalkIsOneWalk(store: Store, entries: Entries, clock: nat -> int, limit: nat, target: Arn)
    returns (k: nat)
    requires limit >= 1 && Advancing(clock)
    ensures CachedWalkAt(store, entries, clock, limit, target)
         == CachedWalk(store, Live(entries, clock(k)), limit, target)
  {
    k := FromAtIsFrom(store, entries, clock, limit, target, [], target);
  }

  /** The rows lead from the target along the chain. */
  ghost predicate Leads(store: Store, arns: seq<Arn>) {
    forall i :: 0 <= i < |arns| - 1 ==> NamesNext(store, arns[i], arns[i + 1])
  }

  /** What the cached walk serves is spelled by the rows down to a base, or is cut below the limit at an inner
      principal whose entry had not expired when it was looked up, and holds that entry's fields. */
  lemma ServedFromRowsOrLiveEntry(store: Store, entries: Entries, clock: nat -> int, limit: nat, target: Arn, c: Chain)
    requires limit >= 1 && CachedWalkAt(store, entries, clock, limit, target) == Ok(c)
    ensures 2 <= |c.arns| <= limit && c.arns[0] == target && Leads(store, c.arns)
    ensures var last := c.arns[|c.arns| - 1];
            || Spelled(store, c)
            || (&& |c.arns| < limit && last != target
                && last in entries && Answers(entries[last], clock(|c.arns| - 1), c.keys))
  {
    ServedFrom(store, entries, clock, limit, target, [], target, c);
  }

  lemma {:induction false} ServedFrom(store: Store, entries: Entries, clock: nat -> int, limit: nat, target: Arn,
                                      visited: seq<Arn>, at: Arn, c: Chain)
    requires |visited| < limit && Leads(store, visited + [at]) && (visited + [at])[0] == target
    requires CachedFromAt(store, entries, clock, limit, target, visited, at) == Ok(c)
    ensures 2 <= |c.arns| <= limit && c.arns[0] == target && Leads(store, c.arns)
    ensures var last := c.arns[|c.arns| - 1];
            || Spelled(store, c)
            || (&& |c.arns| < limit && last != target
                && last in entries && Answers(entries[last], clock(|c.arns| - 1), c.keys))
    decreases limit - |visited|
  {
    var arns := visited + [at];
    LiveMeans(entries, clock(|visited|), at);
    if at == target || |arns| >= limit || at !in Live(entries, clock(|visited|)) {
      var row := Lookup(store, at).value;
      if NextHop(row).Some? {
        var longer := arns + [NextHop(row).value];
        forall i | 0 <= i < |longer| - 1 ensures NamesNext(store, longer[i], longer[i + 1]) {
          if i < |arns| - 1 { assert NamesNext(store, arns[i], arns[i + 1]); }
        }
        ServedFrom(store, entries, clock, limit, target, arns, NextHop(row).value, c);
      }
    }
  }

  /** The entry holds a session with its token, until the session's own expiration. */
  predicate HoldsSession(e: Entry, s: Session) {
    && e.accessKeyId == Plain(s.keys.accessKeyId) && e.secretAccessKey == Plain(s.keys.secretAccessKey)
    && s.keys.sessionToken.Some? && s.keys.sessionToken.value != ""
    && e.sessionToken == Plain(s.keys.sessionToken.value)
    && s.expiration == Some(e.expiresAt)
  }

  /** What a refresh, whole or broken off, leaves behind: every entry is either the one that was there, or the
      session STS granted for that inner hop, with the expiration STS gave it, and so the credentials that
      walking the chain up to the hop produces. Neither the target (index 0) nor the base gets an entry. */
  lemma {:induction false} WarmedHoldsFolds(sts: AssumeRole, entries: Entries, c: Chain, low: nat, q: Arn)
    requires 1 <= low < |c.arns|
    requires q in Warmed(sts, entries, c, low)
    ensures || (q in entries && Warmed(sts, entries, c, low)[q] == entries[q])
            || exists i ::
                 && low <= i < |c.arns| - 1 && c.arns[i] == q
                 && HopSession(sts, c, i).Ok?
                 && HoldsSession(Warmed(sts, entries, c, low)[q], HopSession(sts, c, i).value)
                 && Fold(sts, c.arns[i..], c.keys) == Ok(HopSession(sts, c, i).value.keys)
    decreases |c.arns| - low
  {
    if low < |c.arns| - 1 {
      FoldStep(sts, c, low);
      if q in Warmed(sts, entries, c, low + 1) {
        WarmedHoldsFolds(sts, entries, c, low + 1, q);
      }
      var h := HopSession(sts, c, low);
      if Cacheable(h) && q == c.arns[low] {
        assert HoldsSession(Warmed(sts, entries, c, low)[q], h.value);
      }
    }
  }

  /** And which hops do: over a chain that visits nobody twice, as true chains do, exactly those whose session
      has a token and an expiration; every other entry is as it was. */
  lemma {:induction false} WarmedExactly(sts: AssumeRole, entries: Entries, c: Chain, low: nat, q: Arn)
    requires 1 <= low < |c.arns|
    requires forall i, j :: 0 <= i < j < |c.arns| ==> c.arns[i] != c.arns[j]
    ensures var after := Warmed(sts, entries, c, low);
            && (forall i :: low <= i < |c.arns| - 1 && c.arns[i] == q ==>
                  if HopSession(sts, c, i).Ok? && KeepsSession(HopSession(sts, c, i).value)
                  then q in after && HoldsSession(after[q], HopSession(sts, c, i).value)
                  else (q in after <==> q in entries) && (q in after ==> after[q] == entries[q]))
            && (q !in c.arns[low..|c.arns| - 1] ==>
                  (q in after <==> q in entries) && (q in after ==> after[q] == entries[q]))
    decreases |c.arns| - low
  {
    if low < |c.arns| - 1 {
      WarmedExactly(sts, entries, c, low + 1, q);
      assert c.arns[low..|c.arns| - 1] == [c.arns[low]] + c.arns[low + 1..|c.arns| - 1];
      if q == c.arns[low] {
        forall i | low + 1 <= i < |c.arns| - 1 ensures c.arns[i] != q {}
        assert q !in c.arns[low + 1..|c.arns| - 1];
      }
    }
  }

  /** A session worth caching has both a token and an expiration. */
  predicate KeepsSession(s: Session) {
    s.keys.sessionToken.Some? && s.keys.sessionToken.value != "" && s.expiration.Some?
  }

  /** The hops from `low` on whose session is worth caching. */
  ghost function CachedHops(sts: AssumeRole, c: Chain, low: nat): set<int> {
    set i | low <= i < |c.arns| - 1 && HopSession(sts, c, i).Ok? && KeepsSession(HopSession(sts, c, i).value)
  }

  /** The refreshed counter counts those hops. */
  lemma {:induction false} WarmedCountCounts(sts: AssumeRole, c: Chain, low: nat)
    requires low < |c.arns|
    ensures WarmedCount(sts, c, low) == |CachedHops(sts, c, low)|
    decreases |c.arns| - low
  {
    if low == |c.arns| - 1 {
      assert CachedHops(sts, c, low) == {};
    } else {
      WarmedCountCounts(sts, c, low + 1);
      assert CachedHops(sts, c, low)
          == CachedHops(sts, c, low + 1) + (if Cacheable(HopSession(sts, c, low)) then {low} else {});
    }
  }
}
