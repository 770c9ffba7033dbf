/**
 Assuming roles along a chain.

 STS is a deterministic function of the role and the calling credentials. `Fold` is the outcome of
 walking a chain from the keys of its last principal up to the first: the credentials that principal
 works with.
 */
module RoleSessions {
  import opened Prelude
  import opened CredentialModel

  /** What STS answers; both the token and the expiration can be missing from a response. */
  datatype Session = Session(keys: AccessKeys, expiration: Option<int>)

  type AssumeRole = (Arn, AccessKeys) -> Result<Session, string>

  function Fold(sts: AssumeRole, arns: seq<Arn>, keys: AccessKeys): Result<AccessKeys, string> {
    if |arns| <= 1 then Ok(keys)
    else
      match Fold(sts, arns[1..], keys)
      case Err(e) => Err(e)
      case Ok(caller) =>
        match sts(arns[0], caller)
        case Err(e) => Err(e)
        case Ok(session) => Ok(session.keys)
  }

  /** STS's answer for the hop at `i`, when the hops below it went through. */
  function HopSession(sts: AssumeRole, c: Chain, i: nat): Result<Session, string>
    requires i < |c.arns|
  {
    match Fold(sts, c.arns[i + 1..], c.keys)
    case Err(e) => Err(e)
    case Ok(caller) => sts(c.arns[i], caller)
  }

  lemma FoldStep(sts: AssumeRole, c: Chain, i: nat)
    requires i + 1 < |c.arns|
    ensures Fold(sts, c.arns[i..], c.keys) ==
            match HopSession(sts, c, i)
            case Err(e) => Err(e)
            case Ok(session) => Ok(session.keys)
  {
    assert c.arns[i..][1..] == c.arns[i + 1..];
  }

  /** STS grants the role to this caller, and these are the session's keys. */
  predicate Grants(sts: AssumeRole, role: Arn, caller: AccessKeys, keys: AccessKeys) {
    sts(role, caller).Ok? && sts(role, caller).value.keys == keys
  }

  /** A trail of credentials up a chain: the bottom principal works with the given keys, and each one above it
      with the session that the one below it was granted. */
  ghost predicate IsTrail(sts: AssumeRole, arns: seq<Arn>, keys: AccessKeys, trail: seq<AccessKeys>) {
    && |trail| == |arns| > 0
    && trail[|arns| - 1] == keys
    && forall i :: 0 <= i < |arns| - 1 ==> Grants(sts, arns[i], trail[i + 1], trail[i])
  }

  /** The walk ends at `i`: everything below it was granted, and STS refuses the role at `i`. */
  ghost predicate RefusedAt(sts: AssumeRole, arns: seq<Arn>, keys: AccessKeys, i: nat, trail: seq<AccessKeys>,
                            message: string) {
    i + 1 < |arns| && IsTrail(sts, arns[i + 1..], keys, trail) && sts(arns[i], trail[0]) == Err(message)
  }

  /** A walk yields the head of a trail up the chain, or the refusal that ends one, and nothing else. */
  lemma FoldIsATrail(sts: AssumeRole, arns: seq<Arn>, keys: AccessKeys, r: Result<AccessKeys, string>)
    requires |arns| >= 1
    ensures Fold(sts, arns, keys) == r <==>
            match r
            case Ok(top) => exists trail :: IsTrail(sts, arns, keys, trail) && trail[0] == top
            case Err(message) => exists i: nat, trail :: RefusedAt(sts, arns, keys, i, trail, message)
  {
    FoldLeavesATrail(sts, arns, keys);
    forall trail | IsTrail(sts, arns, keys, trail) ensures Fold(sts, arns, keys) == Ok(trail[0]) {
      TrailFolds(sts, arns, keys, trail);
    }
    forall i: nat, trail, message | RefusedAt(sts, arns, keys, i, trail, message)
      ensures Fold(sts, arns, keys) == Err(message)
    {
      TrailFolds(sts, arns[i + 1..], keys, trail);
      FoldStep(sts, Chain(arns, keys), i);
      FoldFailsUpwards(sts, arns[..i], arns[i..], keys);
      assert arns[..i] + arns[i..] == arns;
    }
  }

  lemma {:induction false} TrailFolds(sts: AssumeRole, arns: seq<Arn>, keys: AccessKeys, trail: seq<AccessKeys>)
    requires IsTrail(sts, arns, keys, trail)
    ensures Fold(sts, arns, keys) == Ok(trail[0])
  {
    if |arns| > 1 {
      assert Grants(sts, arns[0], trail[0 + 1], trail[0]);
      forall i | 0 <= i < |arns| - 2 ensures Grants(sts, arns[1..][i], trail[1..][i + 1], trail[1..][i]) {
        assert Grants(sts, arns[i + 1], trail[i + 1 + 1], trail[i + 1]);
      }
      TrailFolds(sts, arns[1..], keys, trail[1..]);
    }
  }

  lemma {:induction false} FoldLeavesATrail(sts: AssumeRole, arns: seq<Arn>, keys: AccessKeys)
    requires |arns| >= 1
    ensures match Fold(sts, arns, keys)
            case Ok(top) => exists trail :: IsTrail(sts, arns, keys, trail) && trail[0] == top
            case Err(message) => exists i: nat, trail :: RefusedAt(sts, arns, keys, i, trail, message)
  {
    if |arns| == 1 {
      assert IsTrail(sts, arns, keys, [keys]);
    } else {
      FoldLeavesATrail(sts, arns[1..], keys);
      match Fold(sts, arns[1..], keys)
      case Err(message) =>
        var i: nat, trail :| RefusedAt(sts, arns[1..], keys, i, trail, message);
        assert arns[1..][i + 1..] == arns[i + 2..];
        assert Fold(sts, arns, keys) == Err(message);
        assert RefusedAt(sts, arns, keys, i + 1, trail, message);
      case Ok(caller) =>
        var trail :| IsTrail(sts, arns[1..], keys, trail) && trail[0] == caller;
        match sts(arns[0], caller)
        case Err(message) =>
          assert Fold(sts, arns, keys) == Err(message);
          assert RefusedAt(sts, arns, keys, 0, trail, message);
        case Ok(session) => TrailGrows(sts, arns, keys, trail, session.keys);
    }
  }

  lemma TrailGrows(sts: AssumeRole, arns: seq<Arn>, keys: AccessKeys, trail: seq<AccessKeys>, top: AccessKeys)
    requires |arns| > 1 && IsTrail(sts, arns[1..], keys, trail) && Grants(sts, arns[0], trail[0], top)
    ensures IsTrail(sts, arns, keys, [top] + trail)
  {
    var longer := [top] + trail;
    forall i | 0 <= i < |arns| - 1 ensures Grants(sts, arns[i], longer[i + 1], longer[i]) {
      if i > 0 { assert Grants(sts, arns[1..][i - 1], trail[i - 1 + 1], trail[i - 1]); }
    }
  }

  /** Walking a chain can be resumed from any principal whose credentials are known. */
  lemma {:induction false} FoldSplits(sts: AssumeRole, head: seq<Arn>, tail: seq<Arn>, keys: AccessKeys,
                                      middle: AccessKeys)
    requires |tail| >= 1 && Fold(sts, tail, keys) == Ok(middle)
    ensures Fold(sts, head + tail, keys) == Fold(sts, head + [tail[0]], middle)
  {
    if |head| == 0 {
      assert head + tail == tail;
      assert head + [tail[0]] == [tail[0]];
    } else {
      FoldSplits(sts, head[1..], tail, keys, middle);
      assert (head + tail)[1..] == head[1..] + tail;
      assert (head + [tail[0]])[1..] == head[1..] + [tail[0]];
    }
  }

  /** A walk that fails from below fails from everywhere above. */
  lemma {:induction false} FoldFailsUpwards(sts: AssumeRole, head: seq<Arn>, tail: seq<Arn>, keys: AccessKeys)
    requires |tail| >= 1 && Fold(sts, tail, keys).Err?
    ensures Fold(sts, head + tail, keys) == Err(Fold(sts, tail, keys).error)
  {
    if |head| == 0 {
      assert head + tail == tail;
    } else {
      FoldFailsUpwards(sts, head[1..], tail, keys);
      assert (head + tail)[1..] == head[1..] + tail;
    }
  }
}
