/**
 The `credentials` table and the trust paths it spells.

 A row either assumes from another principal or is the base of a chain. A path is a sequence of
 principals in which each row names the next; it is the reference against which both chain walks
 are proved.
 */
module CredentialModel {
  import opened Prelude

  type Arn = string

  datatype AccessKeys = AccessKeys(accessKeyId: string, secretAccessKey: string, sessionToken: Option<string>)

  /** The three encrypted columns of a row. Absent columns decrypt to nothing; `Undecryptable` is
      a present column that no configured key authenticates. */
  datatype Secrets =
    | Secrets(accessKeyId: Option<string>, secretAccessKey: Option<string>, sessionToken: Option<string>)
    | Undecryptable

  datatype Row = Row(assumedBy: Option<Arn>, secrets: Secrets)

  type Store = map<Arn, Row>

  /** A resolved chain: principals from the target (index 0) to the base or to a cached hop, and the
      keys held by the last of them. */
  datatype Chain = Chain(arns: seq<Arn>, keys: AccessKeys)

  datatype ChainError = NotFound | DecryptionFailed | TooDeep | NotValid | LongTermRefused

  /** `getCredentialByPrincipalArn`: the decrypted row, or why there is none. */
  function Lookup(store: Store, arn: Arn): (r: Result<Row, ChainError>)
    ensures r.Ok? ==> r.value.secrets.Secrets?
  {
    if arn !in store then Err(NotFound)
    else if store[arn].secrets.Undecryptable? then Err(DecryptionFailed)
    else Ok(store[arn])
  }

  /** The principal a row assumes from; an empty `assumed_by` counts as none. */
  function NextHop(row: Row): Option<Arn> {
    if Truthy(row.assumedBy) then row.assumedBy else None
  }

  /** The keys a base row can offer, if it holds both halves. */
  function BaseKeys(row: Row): Option<AccessKeys> {
    match row.secrets
    case Undecryptable => None
    case Secrets(id, secret, token) =>
      if Truthy(id) && Truthy(secret) then Some(AccessKeys(id.value, secret.value, token)) else None
  }

  /** The store sends a walk from `a` on to `b`. */
  predicate Edge(store: Store, a: Arn, b: Arn) {
    Lookup(store, a).Ok? && NextHop(Lookup(store, a).value) == Some(b)
  }

  ghost predicate IsPath(store: Store, arns: seq<Arn>) {
    && |arns| >= 1
    && forall i :: 0 <= i < |arns| - 1 ==> Edge(store, arns[i], arns[i + 1])
  }

  /** A readable row that assumes from nobody. */
  predicate IsBase(store: Store, a: Arn) {
    Lookup(store, a).Ok? && NextHop(Lookup(store, a).value).None?
  }

  /** A whole trust path of at least one hop, down to its base. */
  ghost predicate TrueRoute(store: Store, target: Arn, arns: seq<Arn>) {
    && |arns| >= 2
    && arns[0] == target
    && IsPath(store, arns)
    && IsBase(store, arns[|arns| - 1])
  }

  ghost predicate KeysOfBase(store: Store, c: Chain) {
    && |c.arns| >= 1
    && Lookup(store, c.arns[|c.arns| - 1]).Ok?
    && BaseKeys(Lookup(store, c.arns[|c.arns| - 1]).value) == Some(c.keys)
  }

  /** The chain a target really has, whatever the hop limit. */
  ghost predicate TrueChain(store: Store, target: Arn, c: Chain) {
    TrueRoute(store, target, c.arns) && KeysOfBase(store, c)
  }

  /** The row of `a` is readable and its `assumed_by` column names `b`. */
  predicate NamesNext(store: Store, a: Arn, b: Arn) {
    a in store && store[a].secrets.Secrets? && store[a].assumedBy == Some(b) && b != ""
  }

  /** The chain as the table's columns spell it: each row names the next principal, and the last names none
      and holds exactly the chain's keys, its session token included. */
  ghost predicate Spelled(store: Store, c: Chain) {
    && |c.arns| >= 2
    && (forall i :: 0 <= i < |c.arns| - 1 ==> NamesNext(store, c.arns[i], c.arns[i + 1]))
    && c.arns[|c.arns| - 1] in store
    && var base := store[c.arns[|c.arns| - 1]];
       && base.secrets.Secrets?
       && (base.assumedBy == None || base.assumedBy == Some(""))
       && base.secrets.accessKeyId == Some(c.keys.accessKeyId) && c.keys.accessKeyId != ""
       && base.secrets.secretAccessKey == Some(c.keys.secretAccessKey) && c.keys.secretAccessKey != ""
       && base.secrets.sessionToken == c.keys.sessionToken
  }

  /** A target's true chain is the one the columns spell. */
  lemma TrueChainIsSpelled(store: Store, target: Arn, c: Chain)
    ensures TrueChain(store, target, c) <==> Spelled(store, c) && c.arns[0] == target
  {
    if TrueChain(store, target, c) {
      forall i | 0 <= i < |c.arns| - 1 ensures NamesNext(store, c.arns[i], c.arns[i + 1]) {
        assert Edge(store, c.arns[i], c.arns[i + 1]);
      }
    }
    if Spelled(store, c) && c.arns[0] == target {
      forall i | 0 <= i < |c.arns| - 1 ensures Edge(store, c.arns[i], c.arns[i + 1]) {
        assert NamesNext(store, c.arns[i], c.arns[i + 1]);
      }
    }
  }

  /** Two paths from one principal agree for as long as both last. */
  lemma {:induction false} PathsAgree(store: Store, p: seq<Arn>, q: seq<Arn>, i: nat)
    requires IsPath(store, p) && IsPath(store, q) && p[0] == q[0]
    requires i < |p| && i < |q|
    ensures p[i] == q[i]
  {
    if i > 0 {
      PathsAgree(store, p, q, i - 1);
      assert Edge(store, p[i - 1], p[i - 1 + 1]) && Edge(store, q[i - 1], q[i - 1 + 1]);
    }
  }

  lemma PathSuffix(store: Store, p: seq<Arn>, i: nat)
    requires IsPath(store, p) && i < |p|
    ensures IsPath(store, p[i..])
  {
    forall j | 0 <= j < |p[i..]| - 1 ensures Edge(store, p[i..][j], p[i..][j + 1]) {
      assert Edge(store, p[i + j], p[i + j + 1]);
    }
  }

  lemma PathPrefix(store: Store, p: seq<Arn>, i: nat)
    requires IsPath(store, p) && 1 <= i <= |p|
    ensures IsPath(store, p[..i])
  {
    forall j | 0 <= j < i - 1 ensures Edge(store, p[..i][j], p[..i][j + 1]) {
      assert Edge(store, p[j], p[j + 1]);
    }
  }

  lemma PathJoin(store: Store, p: seq<Arn>, q: seq<Arn>)
    requires |p| >= 1 && IsPath(store, p) && IsPath(store, q)
    requires p[|p| - 1] == q[0]
    ensures IsPath(store, p[..|p| - 1] + q)
  {
    var r := p[..|p| - 1] + q;
    forall j | 0 <= j < |r| - 1 ensures Edge(store, r[j], r[j + 1]) {
      if j < |p| - 1 {
        assert Edge(store, p[j], p[j + 1]);
      } else {
        assert Edge(store, q[j - (|p| - 1)], q[j - (|p| - 1) + 1]);
      }
    }
  }

  lemma PathExtends(store: Store, p: seq<Arn>, hop: Arn)
    requires IsPath(store, p) && Edge(store, p[|p| - 1], hop)
    ensures IsPath(store, p + [hop])
  {
    var r := p + [hop];
    forall j | 0 <= j < |r| - 1 ensures Edge(store, r[j], r[j + 1]) {
      if j < |p| - 1 { assert Edge(store, p[j], p[j + 1]); }
    }
  }

  /** A trust path that ends at a base never visits a principal twice, so a cycle has no base. */
  lemma TrueRouteNeverRepeats(store: Store, target: Arn, arns: seq<Arn>, i: nat, j: nat)
    requires TrueRoute(store, target, arns)
    requires i < j < |arns|
    ensures arns[i] != arns[j]
  {
    if arns[i] == arns[j] {
      var n := |arns|;
      assert Edge(store, arns[i + (n - 1 - j)], arns[i + (n - 1 - j) + 1]);
      PathSuffix(store, arns, i);
      PathSuffix(store, arns, j);
      PathsAgree(store, arns[i..], arns[j..], n - 1 - j);
      assert false;
    }
  }

  /** A target has at most one true route, and so at most one true chain. */
  lemma TrueRouteUnique(store: Store, target: Arn, p: seq<Arn>, q: seq<Arn>)
    requires TrueRoute(store, target, p) && TrueRoute(store, target, q)
    ensures p == q
  {
    if |p| < |q| {
      assert Edge(store, q[|p| - 1], q[|p| - 1 + 1]);
      PathsAgree(store, p, q, |p| - 1);
      assert false;
    } else if |q| < |p| {
      assert Edge(store, p[|q| - 1], p[|q| - 1 + 1]);
      PathsAgree(store, p, q, |q| - 1);
      assert false;
    } else {
      forall i | 0 <= i < |p| ensures p[i] == q[i] {
        PathsAgree(store, p, q, i);
      }
    }
  }

  /** The tail of a true route from an inner principal is that principal's own true route. */
  lemma TrueRouteSuffix(store: Store, target: Arn, arns: seq<Arn>, i: nat)
    requires TrueRoute(store, target, arns) && i < |arns| - 1
    ensures TrueRoute(store, arns[i], arns[i..])
  {
    PathSuffix(store, arns, i);
  }

  /** Rewriting one row leaves a route exactly as it was unless the row is on it and its onward
      link, or the base's lack of one, really changes. */
  lemma RouteSurvivesWrite(store: Store, target: Arn, arns: seq<Arn>, w: Arn, row: Row)
    requires TrueRoute(store, target, arns)
    ensures TrueRoute(store[w := row], target, arns)
        <==> (w !in arns || (w in store && row.secrets.Secrets? && NextHop(row) == NextHop(store[w])))
  {
    var after := store[w := row];
    forall i | 0 <= i < |arns| - 1 ensures Edge(store, arns[i], arns[i + 1]) {}
    if w !in arns || (w in store && row.secrets.Secrets? && NextHop(row) == NextHop(store[w])) {
      forall i | 0 <= i < |arns| - 1 ensures Edge(after, arns[i], arns[i + 1]) {
        assert Edge(store, arns[i], arns[i + 1]);
        assert arns[i] in arns;
      }
      assert arns[|arns| - 1] in arns;
    } else {
      var k :| 0 <= k < |arns| && arns[k] == w;
      if k < |arns| - 1 {
        assert Edge(store, arns[k], arns[k + 1]);
        assert !Edge(after, arns[k], arns[k + 1]);
      }
    }
  }

  /** Removing one row leaves a route whole exactly when the row is not on it. */
  lemma RouteSurvivesRemoval(store: Store, target: Arn, arns: seq<Arn>, gone: Arn)
    requires TrueRoute(store, target, arns)
    ensures TrueRoute(store - {gone}, target, arns) <==> gone !in arns
  {
    var after := store - {gone};
    if gone !in arns {
      forall i | 0 <= i < |arns| - 1 ensures Edge(after, arns[i], arns[i + 1]) {
        assert Edge(store, arns[i], arns[i + 1]);
        assert arns[i] in arns;
      }
      assert arns[|arns| - 1] in arns;
    } else {
      var k :| 0 <= k < |arns| && arns[k] == gone;
      if k < |arns| - 1 {
        assert !Edge(after, arns[k], arns[k + 1]);
      }
    }
  }
}
