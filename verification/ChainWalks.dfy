/**
 The two chain walks as functions of the store, and what they decide.

 `ColdWalk` never looks at the cache; `CachedWalk` stops at the first live cached hop below the hop
 limit. `Verdict` says what the end of a path means, and `Stop` where a walk ends: a walk answers `r`
 exactly when some path from the target stops with `r`, and there is only one such path.
 */
module ChainWalks {
  import opened Prelude
  import opened CredentialModel

  /** The credentials each principal would answer from the cache at one instant. */
  type LiveView = map<Arn, AccessKeys>

  /** What a walk answers at the row that ends it. */
  function Finish(row: Row, arns: seq<Arn>): Result<Chain, ChainError> {
    match BaseKeys(row)
    case None => Err(NotValid)
    case Some(keys) => if |arns| > 1 then Ok(Chain(arns, keys)) else Err(LongTermRefused)
  }

  function ColdFrom(store: Store, limit: nat, visited: seq<Arn>, at: Arn): (r: Result<Chain, ChainError>)
    requires |visited| < limit
    ensures r.Ok? ==> |r.value.arns| >= 2
    decreases limit - |visited|
  {
    var arns := visited + [at];
    match Lookup(store, at)
    case Err(e) => Err(e)
    case Ok(row) =>
      match NextHop(row)
      case None => Finish(row, arns)
      case Some(next) => if |arns| >= limit then Err(TooDeep) else ColdFrom(store, limit, arns, next)
  }

  function ColdWalk(store: Store, limit: nat, target: Arn): (r: Result<Chain, ChainError>)
    requires limit >= 1
    ensures r.Ok? ==> |r.value.arns| >= 2
  {
    ColdFrom(store, limit, [], target)
  }

  function CachedFrom(store: Store, live: LiveView, limit: nat, target: Arn, visited: seq<Arn>,
                      at: Arn): (r: Result<Chain, ChainError>)
    requires |visited| < limit
    ensures r.Ok? ==> |visited| < |r.value.arns|
    decreases limit - |visited|
  {
    var arns := visited + [at];
    if at != target && |arns| < limit && at in live then Ok(Chain(arns, live[at]))
    else
      match Lookup(store, at)
      case Err(e) => Err(e)
      case Ok(row) =>
        match NextHop(row)
        case None => Finish(row, arns)
        case Some(next) => if |arns| >= limit then Err(TooDeep) else CachedFrom(store, live, limit, target, arns, next)
  }

  function CachedWalk(store: Store, live: LiveView, limit: nat, target: Arn): (r: Result<Chain, ChainError>)
    requires limit >= 1
    ensures r.Ok? ==> |r.value.arns| > 0
  {
    CachedFrom(store, live, limit, target, [], target)
  }

  /** The walk may answer from the cache at position `i` of the path. */
  predicate Hit(live: LiveView, limit: nat, arns: seq<Arn>, i: nat)
    requires i < |arns|
  {
    arns[i] != arns[0] && i + 1 < limit && arns[i] in live
  }

  /** What the store alone says about a path that is walked to its end. */
  ghost predicate Verdict(store: Store, limit: nat, arns: seq<Arn>, r: Result<Chain, ChainError>)
    requires |arns| >= 1
  {
    var last := arns[|arns| - 1];
    if last !in store then r == Err(NotFound)
    else if store[last].secrets.Undecryptable? then r == Err(DecryptionFailed)
    else if !IsBase(store, last) then |arns| == limit && r == Err(TooDeep)
    else if BaseKeys(store[last]).None? then r == Err(NotValid)
    else if |arns| == 1 then r == Err(LongTermRefused)
    else r == Ok(Chain(arns, BaseKeys(store[last]).value))
  }

  /** `arns` is where a walk of `target` ends, with answer `r`. */
  ghost predicate Stop(store: Store, live: LiveView, limit: nat, target: Arn, arns: seq<Arn>,
                       r: Result<Chain, ChainError>) {
    && IsPath(store, arns)
    && arns[0] == target
    && |arns| <= limit
    && (forall i: nat :: i < |arns| - 1 ==> !Hit(live, limit, arns, i))
    && if Hit(live, limit, arns, |arns| - 1) then r == Ok(Chain(arns, live[arns[|arns| - 1]]))
       else Verdict(store, limit, arns, r)
  }

  lemma {:induction false} WalkStops(store: Store, live: LiveView, limit: nat, target: Arn, visited: seq<Arn>, at: Arn)
    returns (arns: seq<Arn>)
    requires |visited| < limit
    requires IsPath(store, visited + [at]) && (visited + [at])[0] == target
    requires forall i: nat :: i < |visited| ==> !Hit(live, limit, visited + [at], i)
    ensures Stop(store, live, limit, target, arns, CachedFrom(store, live, limit, target, visited, at))
    decreases limit - |visited|
  {
    arns := visited + [at];
    if !Hit(live, limit, arns, |visited|) && Lookup(store, at).Ok? {
      var row := Lookup(store, at).value;
      if NextHop(row).Some? && |arns| < limit {
        var next := NextHop(row).value;
        var longer := arns + [next];
        forall i | 0 <= i < |longer| - 1 ensures Edge(store, longer[i], longer[i + 1]) {
          if i < |arns| - 1 {
            assert Edge(store, arns[i], arns[i + 1]);
          }
        }
        forall i: nat | i < |arns| ensures !Hit(live, limit, longer, i) {
          assert !Hit(live, limit, arns, i);
        }
        arns := WalkStops(store, live, limit, target, arns, next);
      }
    }
  }

  /** A shorter stop cannot be a proper prefix of a longer one: the walk would have ended there. */
  lemma StopIsNotPassed(store: Store, live: LiveView, limit: nat, target: Arn,
                        a: seq<Arn>, ra: Result<Chain, ChainError>, b: seq<Arn>, rb: Result<Chain, ChainError>)
    requires Stop(store, live, limit, target, a, ra) && Stop(store, live, limit, target, b, rb)
    ensures |a| >= |b|
  {
    if |a| < |b| {
      var last := |a| - 1;
      assert Edge(store, b[last], b[last + 1]);
      assert !Hit(live, limit, b, last);
      PathsAgree(store, a, b, last);
      assert false;
    }
  }

  lemma StopUnique(store: Store, live: LiveView, limit: nat, target: Arn,
                   a: seq<Arn>, ra: Result<Chain, ChainError>, b: seq<Arn>, rb: Result<Chain, ChainError>)
    requires Stop(store, live, limit, target, a, ra) && Stop(store, live, limit, target, b, rb)
    ensures a == b && ra == rb
  {
    StopIsNotPassed(store, live, limit, target, a, ra, b, rb);
    StopIsNotPassed(store, live, limit, target, b, rb, a, ra);
    forall i | 0 <= i < |a| ensures a[i] == b[i] {
      PathsAgree(store, a, b, i);
    }
  }

  /** The cached walk answers `r` exactly when some path from the target stops with `r`. */
  lemma CachedWalkDecides(store: Store, live: LiveView, limit: nat, target: Arn, r: Result<Chain, ChainError>)
    requires limit >= 1
    ensures CachedWalk(store, live, limit, target) == r
        <==> exists arns :: Stop(store, live, limit, target, arns, r)
  {
    var arns := WalkStops(store, live, limit, target, [], target);
    forall other, r' | Stop(store, live, limit, target, other, r')
      ensures r' == CachedWalk(store, live, limit, target)
    {
      StopUnique(store, live, limit, target, arns, CachedWalk(store, live, limit, target), other, r');
    }
  }

  lemma {:induction false} ColdIsCachedWithoutHits(store: Store, live: LiveView, limit: nat, target: Arn,
                                                   visited: seq<Arn>, at: Arn)
    requires |visited| < limit && live == map[]
    ensures ColdFrom(store, limit, visited, at) == CachedFrom(store, live, limit, target, visited, at)
    decreases limit - |visited|
  {
    var arns := visited + [at];
    if Lookup(store, at).Ok? && NextHop(Lookup(store, at).value).Some? && |arns| < limit {
      ColdIsCachedWithoutHits(store, live, limit, target, arns, NextHop(Lookup(store, at).value).value);
    }
  }

  /** With nothing live in the cache the two walks give the same answer and the same refusal. */
  lemma NoLiveEntriesNoDifference(store: Store, limit: nat, target: Arn)
    requires limit >= 1
    ensures CachedWalk(store, map[], limit, target) == ColdWalk(store, limit, target)
  {
    ColdIsCachedWithoutHits(store, map[], limit, target, [], target);
  }

  /** The cold walk answers `r` exactly when some path of at most `limit` principals ends in `r`;
      this fixes every refusal as well as every accepted chain. */
  lemma ColdWalkDecides(store: Store, limit: nat, target: Arn, r: Result<Chain, ChainError>)
    requires limit >= 1
    ensures ColdWalk(store, limit, target) == r
        <==> exists arns ::
               IsPath(store, arns) && arns[0] == target && |arns| <= limit && Verdict(store, limit, arns, r)
  {
    NoLiveEntriesNoDifference(store, limit, target);
    CachedWalkDecides(store, map[], limit, target, r);
    if arns :| IsPath(store, arns) && arns[0] == target && |arns| <= limit && Verdict(store, limit, arns, r) {
      assert Stop(store, map[], limit, target, arns, r);
    }
    if arns :| Stop(store, map[], limit, target, arns, r) {
      assert IsPath(store, arns) && arns[0] == target && |arns| <= limit && Verdict(store, limit, arns, r);
    }
  }

  /** The cold walk accepts exactly the target's true chain, when it fits the limit. */
  lemma ColdWalkAccepts(store: Store, limit: nat, target: Arn, c: Chain)
    requires limit >= 1
    ensures ColdWalk(store, limit, target) == Ok(c) <==> TrueChain(store, target, c) && |c.arns| <= limit
  {
    ColdWalkDecides(store, limit, target, Ok(c));
    if TrueChain(store, target, c) && |c.arns| <= limit {
      assert Verdict(store, limit, c.arns, Ok(c));
    }
  }

  /** Column by column: the cold walk answers with a chain exactly when the rows spell that chain from the
      target down, and it fits the limit. */
  lemma ColdWalkReadsRows(store: Store, limit: nat, target: Arn, c: Chain)
    requires limit >= 1
    ensures ColdWalk(store, limit, target) == Ok(c) <==> Spelled(store, c) && c.arns[0] == target && |c.arns| <= limit
  {
    ColdWalkAccepts(store, limit, target, c);
    TrueChainIsSpelled(store, target, c);
  }

  /** The walk is too deep exactly when `limit` principals can be followed and the last still points on. */
  lemma ColdWalkTooDeep(store: Store, limit: nat, target: Arn)
    requires limit >= 1
    ensures ColdWalk(store, limit, target) == Err(TooDeep)
        <==> exists arns :: |arns| == limit + 1 && IsPath(store, arns) && arns[0] == target
  {
    ColdWalkDecides(store, limit, target, Err(TooDeep));
    if arns :|
      IsPath(store, arns) && arns[0] == target && |arns| <= limit && Verdict(store, limit, arns, Err(TooDeep)) {
      var last := arns[|arns| - 1];
      PathJoin(store, arns, [last, NextHop(Lookup(store, last).value).value]);
      var longer := arns[..|arns| - 1] + [last, NextHop(Lookup(store, last).value).value];
      assert |longer| == limit + 1 && IsPath(store, longer) && longer[0] == target;
    }
    if arns :| |arns| == limit + 1 && IsPath(store, arns) && arns[0] == target {
      PathPrefix(store, arns, limit);
      assert Edge(store, arns[limit - 1], arns[limit - 1 + 1]);
      assert Verdict(store, limit, arns[..limit], Err(TooDeep));
    }
  }

  /** The first position at or after `from` where the cached walk may answer from the cache. */
  function FirstHit(live: LiveView, limit: nat, arns: seq<Arn>, from: nat): (k: Option<nat>)
    requires from <= |arns|
    ensures k.Some? ==> from <= k.value < |arns| && Hit(live, limit, arns, k.value)
    ensures forall i: nat :: from <= i < |arns| && (k.None? || i < k.value) ==> !Hit(live, limit, arns, i)
    decreases |arns| - from
  {
    if from == |arns| then None
    else if Hit(live, limit, arns, from) then Some(from)
    else FirstHit(live, limit, arns, from + 1)
  }

  /** Warming the cache never refuses what the cold walk serves: the cached walk answers with the
      whole chain, or with its prefix cut at the first live inner position below the limit. */
  lemma WarmCacheOnlyShortens(store: Store, live: LiveView, limit: nat, target: Arn)
    requires limit >= 1 && ColdWalk(store, limit, target).Ok?
    ensures var c := ColdWalk(store, limit, target).value;
            CachedWalk(store, live, limit, target) ==
            match FirstHit(live, limit, c.arns, 0)
            case None => Ok(c)
            case Some(k) => assert |c.arns| > k; Ok(Chain(c.arns[..k + 1], live[c.arns[k]]))
    ensures var c := ColdWalk(store, limit, target).value;
            forall k: nat :: k < |c.arns| ==>
              (Hit(live, limit, c.arns, k) <==> 1 <= k && k + 1 < limit && c.arns[k] in live)
    ensures CachedWalk(store, live, limit, target).Ok? && |CachedWalk(store, live, limit, target).value.arns| >= 2
  {
    var c := ColdWalk(store, limit, target).value;
    ColdWalkAccepts(store, limit, target, c);
    forall k: nat | 1 <= k < |c.arns| ensures c.arns[k] != c.arns[0] {
      TrueRouteNeverRepeats(store, target, c.arns, 0, k);
    }
    match FirstHit(live, limit, c.arns, 0)
    case None =>
      assert Stop(store, live, limit, target, c.arns, Ok(c));
      CachedWalkDecides(store, live, limit, target, Ok(c));
    case Some(k) =>
      var cut := c.arns[..k + 1];
      PathPrefix(store, c.arns, k + 1);
      forall i: nat | i < |cut| - 1 ensures !Hit(live, limit, cut, i) {
        assert !Hit(live, limit, c.arns, i);
      }
      assert Stop(store, live, limit, target, cut, Ok(Chain(cut, live[c.arns[k]])));
      CachedWalkDecides(store, live, limit, target, Ok(Chain(cut, live[c.arns[k]])));
  }

  /** What a cached walk can serve: a whole true chain within the limit, or a path cut at an inner
      cached principal strictly below the limit. */
  lemma CachedWalkServes(store: Store, live: LiveView, limit: nat, target: Arn, c: Chain)
    requires limit >= 1 && CachedWalk(store, live, limit, target) == Ok(c)
    ensures IsPath(store, c.arns) && c.arns[0] == target && 2 <= |c.arns| <= limit
    ensures || (TrueChain(store, target, c) && forall i: nat :: i < |c.arns| ==> !Hit(live, limit, c.arns, i))
            || (|c.arns| < limit && c.arns[|c.arns| - 1] in live && c.keys == live[c.arns[|c.arns| - 1]])
  {
    CachedWalkDecides(store, live, limit, target, Ok(c));
    var arns :| Stop(store, live, limit, target, arns, Ok(c));
  }
}
