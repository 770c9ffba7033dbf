/**
 Address changes as an interleaved protocol: every database statement is one atomic step, and the
 statements of different accounts' changes, of links and of provisioning mix freely. At most one
 `setPrimaryEmail` is in flight per account.
 */
module AddressMachine {
  import opened Prelude
  import opened Text
  import opened Identity

  /** The statement a change is about to run. */
  datatype Phase = ReadRegistry | ReadCurrent | ReadClaim | WriteClaim | Revoking | Moving

  datatype Change = Change(email: string, phase: Phase)

  /** `links` are registrations whose read found the address free and whose write is still to come. */
  datatype World = World(db: Db, changes: map<string, Change>, links: set<(string, string)>)

  datatype Step =
    | Begin(id: string, newEmail: string)
    | Advance(id: string)
    | Abandon(id: string)
    | LinkRead(id: string, email: string)
    | LinkWrite(id: string, key: string)
    | NewAccount(anchor: string, id: string)

  /** Where the next statement of a change leads: two checks, the claim's read and write, the revoke,
      the move. `None` ends the change, refused or complete. */
  ghost function NextPhase(db: Db, id: string, c: Change): Option<Phase> {
    var key := ToLower(c.email);
    match c.phase
    case ReadRegistry =>
      if key in db.registry && db.registry[key].verified && db.registry[key].userId != id
      then None else Some(ReadCurrent)
    case ReadCurrent =>
      var holder := ByCurrent(db.users, key);
      if holder.Some? && Truthy(db.users[holder.value].id) && db.users[holder.value].id != Some(id)
      then None else Some(ReadClaim)
    case ReadClaim => if key in db.registry && db.registry[key].verified then None else Some(WriteClaim)
    case WriteClaim => if Claim(db, key, id, true).1 then Some(Revoking) else None
    case Revoking => Some(Moving)
    case Moving => None
  }

  /** What that statement writes. */
  ghost function NextDb(db: Db, id: string, c: Change): Db {
    var key := ToLower(c.email);
    match c.phase
    case WriteClaim => Claim(db, key, id, true).0
    case Revoking => RevokeAllVerified(db, id, key)
    case Moving => Move(db, id, key).0
    case _ => db
  }

  ghost function AdvanceChange(w: World, id: string): World
    requires id in w.changes
  {
    var c := w.changes[id];
    World(NextDb(w.db, id, c),
          match NextPhase(w.db, id, c)
          case None => w.changes - {id}
          case Some(phase) => w.changes[id := Change(c.email, phase)],
          w.links)
  }

  ghost function Next(w: World, s: Step): World {
    match s
    case Begin(id, newEmail) =>
      var email := Trim(newEmail);
      if id in w.changes || !ValidEmail(email) || id == "" || ById(w.db.users, id).None? then w
      else
        var anchor := ById(w.db.users, id).value;
        if ToLower(Shown(anchor, w.db.users[anchor])) == ToLower(email) then w
        else w.(changes := w.changes[id := Change(email, ReadRegistry)])
    case Advance(id) => if id in w.changes then AdvanceChange(w, id) else w
    case Abandon(id) => w.(changes := w.changes - {id})
    case LinkRead(id, email) =>
      var key := ToLower(Trim(email));
      if !ValidEmail(Trim(email)) || (key in w.db.registry && w.db.registry[key].verified) then w
      else w.(links := w.links + {(id, key)})
    case LinkWrite(id, key) =>
      if (id, key) in w.links then w.(db := Claim(w.db, key, id, true).0, links := w.links - {(id, key)}) else w
    case NewAccount(anchor, id) =>
      if Clean(ToLower(anchor)) && id != "" then w.(db := Provision(w.db, anchor, id)) else w
  }

  ghost function Run(w: World, steps: seq<Step>): World
    decreases |steps|
  {
    if |steps| == 0 then w else Run(Next(w, steps[0]), steps[1..])
  }

  ghost predicate HoldsVerified(db: Db, id: string) {
    exists k :: Holds(db, k, id)
  }

  ghost predicate Holds(db: Db, key: string, id: string) {
    key in db.registry && db.registry[key] == RegistryRow(id, true)
  }

  /** A change past its claim still holds the address it claimed. */
  ghost predicate Sound(w: World) {
    && WellFormed(w.db)
    && (forall id :: id in w.changes ==> id != "" && ValidEmail(w.changes[id].email))
    && (forall id :: id in w.changes && (w.changes[id].phase.Revoking? || w.changes[id].phase.Moving?) ==>
          Holds(w.db, ToLower(w.changes[id].email), id))
    && (forall l :: l in w.links ==> Clean(l.1))
  }

  lemma NextDbWellFormed(db: Db, id: string, c: Change)
    requires WellFormed(db) && ValidEmail(c.email) && id != ""
    ensures WellFormed(NextDb(db, id, c))
  {
    var key := ToLower(c.email);
    ValidEmailIsClean(c.email);
    match c.phase
    case WriteClaim => ClaimKeepsWellFormed(db, key, id, true);
    case Revoking => RevokeKeepsWellFormed(db, id, key);
    case Moving => MoveKeepsWellFormed(db, id, key);
    case _ =>
  }

  /** A verified row survives every statement but its own account's revoke of other addresses. */
  lemma NextDbKeepsRow(db: Db, id: string, c: Change, key: string, holder: string)
    requires Holds(db, key, holder)
    requires c.phase.Revoking? && holder == id ==> key == ToLower(c.email)
    ensures Holds(NextDb(db, id, c), key, holder)
  {}

  lemma NextDbKeepsAccounts(db: Db, id: string, c: Change, account: string)
    requires ById(db.users, account).Some?
    ensures ById(NextDb(db, id, c).users, account).Some?
  {
    var anchor := ById(db.users, account).value;
    var after := NextDb(db, id, c).users;
    assert anchor in after && after[anchor].id == Some(account);
  }

  lemma AdvanceKeepsSound(w: World, id: string)
    requires Sound(w) && id in w.changes
    ensures Sound(AdvanceChange(w, id))
  {
    var c := w.changes[id];
    var after := AdvanceChange(w, id);
    NextDbWellFormed(w.db, id, c);
    forall other
      | other in after.changes && (after.changes[other].phase.Revoking? || after.changes[other].phase.Moving?)
      ensures Holds(after.db, ToLower(after.changes[other].email), other)
    {
      if other != id || c.phase.Revoking? {
        NextDbKeepsRow(w.db, id, c, ToLower(after.changes[other].email), other);
      }
    }
  }

  lemma StepKeepsSound(w: World, s: Step)
    requires Sound(w)
    ensures Sound(Next(w, s))
  {
    match s
    case Begin(id, newEmail) =>
    case Advance(id) => if id in w.changes { AdvanceKeepsSound(w, id); }
    case Abandon(id) =>
    case LinkRead(id, email) => if ValidEmail(Trim(email)) { ValidEmailIsClean(Trim(email)); }
    case LinkWrite(id, key) => LinkKeepsSound(w, id, key);
    case NewAccount(anchor, id) => NewAccountKeepsSound(w, anchor, id);
  }

  lemma LinkKeepsSound(w: World, id: string, key: string)
    requires Sound(w)
    ensures Sound(Next(w, LinkWrite(id, key)))
  {
    if (id, key) in w.links { ClaimKeepsWellFormed(w.db, key, id, true); }
  }

  lemma NewAccountKeepsSound(w: World, anchor: string, id: string)
    requires Sound(w)
    ensures Sound(Next(w, NewAccount(anchor, id)))
  {
    if Clean(ToLower(anchor)) && id != "" { ProvisionKeepsWellFormed(w.db, anchor, id); }
  }

  /** No step takes an account's last verified address: others' claims leave verified rows alone, others'
      revokes name others, and its own revoke spares the address just claimed. */
  lemma StepKeepsVerified(w: World, s: Step, id: string)
    requires Sound(w) && HoldsVerified(w.db, id)
    ensures HoldsVerified(Next(w, s).db, id)
  {
    var k :| Holds(w.db, k, id);
    if s.Advance? && s.id in w.changes {
      var c := w.changes[s.id];
      var kept := if s.id == id && c.phase.Revoking? then ToLower(c.email) else k;
      NextDbKeepsRow(w.db, s.id, c, kept, id);
    } else {
      assert Holds(Next(w, s).db, k, id);
    }
  }

  lemma StepKeepsAccounts(w: World, s: Step, id: string)
    requires ById(w.db.users, id).Some?
    ensures ById(Next(w, s).db.users, id).Some?
  {
    if s.Advance? && s.id in w.changes {
      NextDbKeepsAccounts(w.db, s.id, w.changes[s.id], id);
    } else {
      var anchor := ById(w.db.users, id).value;
      var after := Next(w, s).db.users;
      assert anchor in after && after[anchor].id == Some(id);
    }
  }

  lemma VerifiedRowResolves(db: Db, id: string)
    requires WellFormed(db) && id != "" && ById(db.users, id).Some? && HoldsVerified(db, id)
    ensures exists presented :: ResolvesTo(db, presented, id)
  {
    var k :| Holds(db, k, id);
    OpensAccount(db, ById(db.users, id).value, id, k);
    assert ResolvesTo(db, k, id);
  }

  ghost predicate Safe(w: World, id: string) {
    Sound(w) && id != "" && ById(w.db.users, id).Some? && HoldsVerified(w.db, id)
  }

  lemma StepKeepsSafe(w: World, s: Step, id: string)
    requires Safe(w, id)
    ensures Safe(Next(w, s), id)
  {
    StepKeepsSound(w, s);
    StepKeepsVerified(w, s, id);
    StepKeepsAccounts(w, s, id);
  }

  lemma {:induction false} RunKeepsSafe(w: World, steps: seq<Step>, id: string)
    requires Safe(w, id)
    ensures Safe(Run(w, steps), id)
    decreases |steps|
  {
    if |steps| > 0 {
      StepKeepsSafe(w, steps[0], id);
      RunKeepsSafe(Next(w, steps[0]), steps[1..], id);
    }
  }

  /* ----- accounts whose current address has no registry row ----- */

  /** Another account's claim of `key` succeeds at this step. */
  ghost predicate Taken(w: World, s: Step, id: string, key: string) {
    match s
    case LinkWrite(other, k) => other != id && k == key && (other, k) in w.links && Claim(w.db, k, other, true).1
    case Advance(other) =>
      && other != id && other in w.changes && w.changes[other].phase.WriteClaim?
      && ToLower(w.changes[other].email) == key && Claim(w.db, key, other, true).1
    case _ => false
  }

  /** The account's own change gives `key` up at this step: it revokes the row, or moves the current address. */
  ghost predicate LeftBehind(w: World, s: Step, id: string, key: string) {
    && s == Advance(id) && id in w.changes && ToLower(w.changes[id].email) != key
    && ((w.changes[id].phase.Revoking? && key in w.db.registry)
        || (w.changes[id].phase.Moving? && key !in w.db.registry && Move(w.db, id, ToLower(w.changes[id].email)).1))
  }

  /** The account has a current address, and `key` is its verified row or, unregistered, that address. */
  ghost predicate Kept(db: Db, anchor: string, id: string, key: string) {
    && IsAccount(db, anchor, id) && db.users[anchor].current.Some?
    && if key in db.registry then Holds(db, key, id) else db.users[anchor].current == Some(key)
  }

  ghost predicate Settled(db: Db, anchor: string, id: string) {
    IsAccount(db, anchor, id) && db.users[anchor].current.Some?
  }

  lemma KeptResolves(db: Db, anchor: string, id: string, key: string)
    requires WellFormed(db) && Settled(db, anchor, id) && Clean(key)
    ensures ResolvesTo(db, key, id) <==> Kept(db, anchor, id, key)
  {
    OpensAccount(db, anchor, id, key);
  }

  lemma ClaimKeepsAddress(db: Db, k: string, claimer: string, anchor: string, id: string, key: string)
    requires Kept(db, anchor, id, key)
    ensures var (after, won) := Claim(db, k, claimer, true);
            && Settled(after, anchor, id)
            && (Kept(after, anchor, id, key) <==> !(claimer != id && k == key && won))
  {}

  lemma RevokeKeepsAddress(db: Db, mover: string, except: string, anchor: string, id: string, key: string)
    requires Kept(db, anchor, id, key)
    ensures var after := RevokeAllVerified(db, mover, except);
            && Settled(after, anchor, id)
            && (Kept(after, anchor, id, key) <==> !(mover == id && except != key && key in db.registry))
  {}

  lemma MoveKeepsAddress(db: Db, mover: string, k: string, anchor: string, id: string, key: string)
    requires WellFormed(db) && Kept(db, anchor, id, key)
    ensures var (after, moved) := Move(db, mover, k);
            && Settled(after, anchor, id)
            && (Kept(after, anchor, id, key) <==> !(mover == id && k != key && key !in db.registry && moved))
  {
    assert ById(db.users, id) == Some(anchor);
  }

  lemma AdvanceKeeps(w: World, mover: string, anchor: string, id: string, key: string)
    requires Sound(w) && Kept(w.db, anchor, id, key) && mover in w.changes
    ensures var s := Advance(mover);
            && Settled(Next(w, s).db, anchor, id)
            && (Kept(Next(w, s).db, anchor, id, key) <==> !Taken(w, s, id, key) && !LeftBehind(w, s, id, key))
  {
    var c := w.changes[mover];
    var k := ToLower(c.email);
    assert Next(w, Advance(mover)).db == NextDb(w.db, mover, c);
    match c.phase
    case WriteClaim => ClaimKeepsAddress(w.db, k, mover, anchor, id, key);
    case Revoking => RevokeKeepsAddress(w.db, mover, k, anchor, id, key);
    case Moving => MoveKeepsAddress(w.db, mover, k, anchor, id, key);
    case _ =>
  }

  lemma ProvisionKeepsAddress(db: Db, newAnchor: string, newId: string, anchor: string, id: string, key: string)
    requires Kept(db, anchor, id, key)
    ensures Kept(Provision(db, newAnchor, newId), anchor, id, key)
  {}

  lemma StepKeepsAddress(w: World, s: Step, anchor: string, id: string, key: string)
    requires Sound(w) && Kept(w.db, anchor, id, key)
    ensures Settled(Next(w, s).db, anchor, id)
    ensures Kept(Next(w, s).db, anchor, id, key) <==> !Taken(w, s, id, key) && !LeftBehind(w, s, id, key)
  {
    match s
    case Advance(mover) => if mover in w.changes { AdvanceKeeps(w, mover, anchor, id, key); }
    case LinkWrite(other, k) => ClaimKeepsAddress(w.db, k, other, anchor, id, key);
    case NewAccount(newAnchor, newId) => ProvisionKeepsAddress(w.db, newAnchor, newId, anchor, id, key);
    case _ =>
  }

  lemma {:induction false} RunSnoc(w: World, steps: seq<Step>, n: nat)
    requires n < |steps|
    ensures Run(w, steps[..n + 1]) == Next(Run(w, steps[..n]), steps[n])
    decreases n
  {
    if n > 0 {
      assert steps[..n + 1][1..] == steps[1..][..n] && steps[..n][1..] == steps[1..][..n - 1];
      RunSnoc(Next(w, steps[0]), steps[1..], n - 1);
    }
  }

  lemma {:induction false} RunKeepsSound(w: World, steps: seq<Step>)
    requires Sound(w)
    ensures Sound(Run(w, steps))
    decreases |steps|
  {
    if |steps| > 0 {
      StepKeepsSound(w, steps[0]);
      RunKeepsSound(Next(w, steps[0]), steps[1..]);
    }
  }

  ghost predicate LostAt(w: World, steps: seq<Step>, m: nat, id: string, key: string)
    requires m < |steps|
  {
    Taken(Run(w, steps[..m]), steps[m], id, key) || LeftBehind(Run(w, steps[..m]), steps[m], id, key)
  }

  lemma {:induction false} KeptUntilLost(w: World, steps: seq<Step>, n: nat, anchor: string, id: string, key: string)
    requires Sound(w) && Kept(w.db, anchor, id, key) && n <= |steps|
    requires forall m: nat :: m < n ==> !LostAt(w, steps, m, id, key)
    ensures Kept(Run(w, steps[..n]).db, anchor, id, key)
    decreases n
  {
    if n > 0 {
      KeptUntilLost(w, steps, n - 1, anchor, id, key);
      StepUntilLost(w, steps, n - 1, anchor, id, key);
    }
  }

  lemma StepUntilLost(w: World, steps: seq<Step>, n: nat, anchor: string, id: string, key: string)
    requires Sound(w) && n < |steps| && Kept(Run(w, steps[..n]).db, anchor, id, key)
    ensures Kept(Run(w, steps[..n + 1]).db, anchor, id, key) <==> !LostAt(w, steps, n, id, key)
    ensures Settled(Run(w, steps[..n + 1]).db, anchor, id)
  {
    RunKeepsSound(w, steps[..n]);
    RunSnoc(w, steps, n);
    StepKeepsAddress(Run(w, steps[..n]), steps[n], anchor, id, key);
  }

  /** An account whose current address is verified for it or not registered at all keeps resolving by that
      address, in every state of an interleaving, exactly as long as no other account's claim of it succeeds
      and its own change does not leave it behind. */
  lemma KeepsResolving(w: World, steps: seq<Step>, anchor: string, id: string, key: string)
    requires Sound(w) && IsAccount(w.db, anchor, id) && w.db.users[anchor].current == Some(key)
    requires key in w.db.registry ==> Holds(w.db, key, id)
    ensures (forall m: nat :: m <= |steps| ==> ResolvesTo(Run(w, steps[..m]).db, key, id))
        <==> (forall m: nat :: m < |steps| ==> !LostAt(w, steps, m, id, key))
  {
    if forall m: nat :: m < |steps| ==> !LostAt(w, steps, m, id, key) {
      forall m: nat | m <= |steps| ensures ResolvesTo(Run(w, steps[..m]).db, key, id) {
        KeptUntilLost(w, steps, m, anchor, id, key);
        RunKeepsSound(w, steps[..m]);
        KeptResolves(Run(w, steps[..m]).db, anchor, id, key);
      }
    } else {
      var l := FirstLost(w, steps, id, key);
      KeptUntilLost(w, steps, l, anchor, id, key);
      StepUntilLost(w, steps, l, anchor, id, key);
      RunKeepsSound(w, steps[..l + 1]);
      KeptResolves(Run(w, steps[..l + 1]).db, anchor, id, key);
    }
  }

  lemma {:induction false} FirstLost(w: World, steps: seq<Step>, id: string, key: string) returns (l: nat)
    requires exists m: nat :: m < |steps| && LostAt(w, steps, m, id, key)
    ensures l < |steps| && LostAt(w, steps, l, id, key) && forall m: nat :: m < l ==> !LostAt(w, steps, m, id, key)
  {
    l := 0;
    while !LostAt(w, steps, l, id, key)
      invariant l < |steps| && forall m: nat :: m < l ==> !LostAt(w, steps, m, id, key)
      decreases |steps| - l
    {
      var m: nat :| m < |steps| && LostAt(w, steps, m, id, key);
      l := l + 1;
    }
  }

  /** Reachable: by a verified row, or by a current address that nobody has registered. */
  ghost predicate Reachable(w: World, anchor: string, id: string, key: string) {
    && Sound(w) && IsAccount(w.db, anchor, id)
    && (HoldsVerified(w.db, id) || (key !in w.db.registry && w.db.users[anchor].current == Some(key)))
  }

  lemma StepKeepsReachable(w: World, s: Step, anchor: string, id: string, key: string)
    requires Reachable(w, anchor, id, key) && !Taken(w, s, id, key)
    ensures Reachable(Next(w, s), anchor, id, key)
  {
    assert ById(w.db.users, id) == Some(anchor);
    StepKeepsSound(w, s);
    StepKeepsAnchor(w, s, anchor, id);
    if HoldsVerified(w.db, id) {
      StepKeepsVerified(w, s, id);
    } else {
      if s == Advance(id) && id in w.changes {
        assert !w.changes[id].phase.Revoking? && !w.changes[id].phase.Moving?;
      }
      StepKeepsAddress(w, s, anchor, id, key);
      assert Kept(Next(w, s).db, anchor, id, key);
      if key in Next(w, s).db.registry { assert Holds(Next(w, s).db, key, id); }
    }
  }

  lemma StepKeepsAnchor(w: World, s: Step, anchor: string, id: string)
    requires IsAccount(w.db, anchor, id)
    ensures IsAccount(Next(w, s).db, anchor, id)
  {}

  /** Never locked out: an account whose current address is its verified row, or is not registered and not
      claimed by another account during the run, has in every state of every interleaving some address that
      resolves to it. */
  lemma NeverLockedOut(w: World, steps: seq<Step>, anchor: string, id: string, key: string)
    requires Sound(w) && IsAccount(w.db, anchor, id) && w.db.users[anchor].current == Some(key)
    requires || Holds(w.db, key, id)
             || (key !in w.db.registry
                 && forall m: nat :: m < |steps| ==> !Taken(Run(w, steps[..m]), steps[m], id, key))
    ensures exists presented :: ResolvesTo(Run(w, steps).db, presented, id)
  {
    assert steps[..|steps|] == steps;
    if Holds(w.db, key, id) {
      assert ById(w.db.users, id) == Some(anchor);
      RunKeepsSafe(w, steps, id);
      VerifiedRowResolves(Run(w, steps).db, id);
    } else {
      ReachableWhileNotTaken(w, steps, |steps|, anchor, id, key);
      ReachableResolves(Run(w, steps), anchor, id, key);
    }
  }

  lemma {:induction false} ReachableWhileNotTaken(w: World, steps: seq<Step>, n: nat, anchor: string, id: string,
                                                  key: string)
    requires Reachable(w, anchor, id, key) && n <= |steps|
    requires forall m: nat :: m < n ==> !Taken(Run(w, steps[..m]), steps[m], id, key)
    ensures Reachable(Run(w, steps[..n]), anchor, id, key)
    decreases n
  {
    if n > 0 {
      ReachableWhileNotTaken(w, steps, n - 1, anchor, id, key);
      RunSnoc(w, steps, n - 1);
      StepKeepsReachable(Run(w, steps[..n - 1]), steps[n - 1], anchor, id, key);
    }
  }

  lemma ReachableResolves(w: World, anchor: string, id: string, key: string)
    requires Reachable(w, anchor, id, key)
    ensures exists presented :: ResolvesTo(w.db, presented, id)
  {
    if HoldsVerified(w.db, id) {
      assert ById(w.db.users, id).Some?;
      VerifiedRowResolves(w.db, id);
    } else {
      KeptResolves(w.db, anchor, id, key);
      assert ResolvesTo(w.db, key, id);
    }
  }

  /** And taken means locked out: an account without a verified row has no address at all once another
      account's claim of its unregistered current address succeeds. */
  lemma TakenLocksOut(w: World, s: Step, anchor: string, id: string, key: string)
    requires Sound(w) && IsAccount(w.db, anchor, id) && w.db.users[anchor].current == Some(key)
    requires key !in w.db.registry && !HoldsVerified(w.db, id) && Taken(w, s, id, key)
    ensures forall presented :: !ResolvesTo(Next(w, s).db, presented, id)
  {
    StepKeepsSound(w, s);
    var after := Next(w, s).db;
    assert after.users == w.db.users && after.registry.Keys == w.db.registry.Keys + {key};
    forall presented ensures !ResolvesTo(after, presented, id) {
      OpensAccount(after, anchor, id, presented);
      var k := ToLower(Trim(presented));
      if k in w.db.registry { assert !Holds(w.db, k, id); }
    }
  }

  lemma Provisioned(db: Db, address: string, id: string)
    requires WellFormed(db) && ValidEmail(address) && id != ""
    requires address !in db.users && ById(db.users, id).None? && ByCurrent(db.users, ToLower(address)).None?
    ensures var w := Next(World(db, map[], {}), NewAccount(address, id));
            && w == World(db.(users := db.users[address := MetaRow(Some(id), Some(ToLower(address)))]), map[], {})
            && Sound(w)
  {
    ValidEmailIsClean(address);
    NewAccountKeepsSound(World(db, map[], {}), address, id);
  }

  lemma LinkSeen(db: Db, address: string, other: string)
    requires ValidEmail(address) && ToLower(address) !in db.registry
    ensures Next(World(db, map[], {}), LinkRead(other, address)) == World(db, map[], {(other, ToLower(address))})
  {
    TrimOfUnspaced(address);
  }

  lemma CurrentOpens(db: Db, anchor: string, id: string, presented: string)
    requires WellFormed(db) && IsAccount(db, anchor, id) && ValidEmail(presented)
    requires db.users[anchor].current == Some(ToLower(presented)) && ToLower(presented) !in db.registry
    ensures ResolvesTo(db, presented, id)
  {
    TrimOfUnspaced(presented);
    OpensAccount(db, anchor, id, presented);
  }

  /** It happens to an account as it is provisioned, which writes no registry row: anybody else's link of
      its address, whose check never looks at current addresses, locks it out. */
  lemma NewAccountCanBeLockedOut(db: Db, address: string, id: string, other: string)
    requires WellFormed(db) && ValidEmail(address) && id != "" && other != id
    requires address !in db.users && ById(db.users, id).None? && ByCurrent(db.users, ToLower(address)).None?
    requires ToLower(address) !in db.registry && !HoldsVerified(db, id)
    ensures var before := [NewAccount(address, id), LinkRead(other, address)];
            var w := Run(World(db, map[], {}), before);
            var after := Run(World(db, map[], {}), before + [LinkWrite(other, ToLower(address))]);
            && ResolvesTo(w.db, address, id)
            && forall presented :: !ResolvesTo(after.db, presented, id)
  {
    var key := ToLower(address);
    var w0 := World(db, map[], {});
    Provisioned(db, address, id);
    var w1 := Next(w0, NewAccount(address, id));
    LinkSeen(w1.db, address, other);
    var w2 := Next(w1, LinkRead(other, address));
    StepKeepsSound(w1, LinkRead(other, address));
    ThreeSteps(w0, NewAccount(address, id), LinkRead(other, address), LinkWrite(other, key));
    CurrentOpens(w2.db, address, id, address);
    assert forall k :: Holds(w2.db, k, id) ==> Holds(db, k, id);
    TakenLocksOut(w2, LinkWrite(other, key), address, id, key);
  }

  lemma ThreeSteps(w: World, a: Step, b: Step, c: Step)
    ensures Run(w, [a, b]) == Next(Next(w, a), b)
    ensures Run(w, [a, b] + [c]) == Next(Next(Next(w, a), b), c)
  {
    var all := [a, b] + [c];
    assert all[..0] == [] && all[..1] == [a] && all[..2] == [a, b] && all[..3] == all;
    RunSnoc(w, all, 0);
    RunSnoc(w, all, 1);
    RunSnoc(w, all, 2);
  }

  function With(w: World, db: Db, id: string, email: string, phase: Phase): World {
    World(db, w.changes[id := Change(email, phase)], w.links)
  }

  lemma AdvanceOnce(w: World, db: Db, id: string, email: string, phase: Phase, rest: seq<Step>)
    ensures var c := Change(email, phase);
            Run(With(w, db, id, email, phase), [Advance(id)] + rest) ==
            match NextPhase(db, id, c)
            case None => Run(World(NextDb(db, id, c), w.changes - {id}, w.links), rest)
            case Some(next) => Run(With(w, NextDb(db, id, c), id, email, next), rest)
  {
    var c := Change(email, phase);
    var now := With(w, db, id, email, phase);
    RunStep(now, Advance(id), rest);
    match NextPhase(db, id, c)
    case None => assert Next(now, Advance(id)) == World(NextDb(db, id, c), w.changes - {id}, w.links);
    case Some(next) => assert Next(now, Advance(id)) == With(w, NextDb(db, id, c), id, email, next);
  }

  function Advances(id: string, n: nat): seq<Step> {
    if n == 0 then [] else [Advance(id)] + Advances(id, n - 1)
  }

  /** Run alone, the interleaved change is the service's own sequence. */
  lemma AloneItIsSetPrimaryEmail(w: World, id: string, newEmail: string)
    requires Sound(w) && Moves(w.db, id, newEmail) && id !in w.changes
    ensures Run(w, [Begin(id, newEmail)] + Advances(id, 6)) == w.(db := SetPrimaryEmail(w.db, id, newEmail).1)
  {
    var begin := Begin(id, newEmail);
    RunStep(w, begin, Advances(id, 6));
    assert Next(w, begin) == With(w, w.db, id, Trim(newEmail), ReadRegistry);
    ChecksPass(w, id, newEmail);
    WritesApply(w, id, newEmail);
  }

  /** So is a link: read and write run alone are one claim of a usable address, and nothing for any other. */
  lemma AloneItIsALink(w: World, id: string, email: string)
    requires (id, ToLower(Trim(email))) !in w.links
    ensures var key := ToLower(Trim(email));
            Run(w, [LinkRead(id, email), LinkWrite(id, key)])
                == w.(db := if ValidEmail(Trim(email)) then Claim(w.db, key, id, true).0 else w.db)
  {
    var read, write := LinkRead(id, email), LinkWrite(id, ToLower(Trim(email)));
    assert [read] + [write] == [read, write] && [write] + [] == [write];
    RunStep(w, read, [write]);
    RunStep(Next(w, read), write, []);
    assert w.links + {(id, ToLower(Trim(email)))} - {(id, ToLower(Trim(email)))} == w.links;
  }

  lemma ChecksPass(w: World, id: string, newEmail: string)
    requires Sound(w) && Moves(w.db, id, newEmail)
    ensures var email := Trim(newEmail);
            Run(With(w, w.db, id, email, ReadRegistry), Advances(id, 6))
                == Run(With(w, w.db, id, email, WriteClaim), Advances(id, 3))
  {
    RunChecks(w, id, Trim(newEmail));
  }

  lemma RunChecks(w: World, id: string, email: string)
    requires NextPhase(w.db, id, Change(email, ReadRegistry)) == Some(ReadCurrent)
    requires NextPhase(w.db, id, Change(email, ReadCurrent)) == Some(ReadClaim)
    requires NextPhase(w.db, id, Change(email, ReadClaim)) == Some(WriteClaim)
    ensures Run(With(w, w.db, id, email, ReadRegistry), Advances(id, 6))
            == Run(With(w, w.db, id, email, WriteClaim), Advances(id, 3))
  {
    AdvanceOnce(w, w.db, id, email, ReadRegistry, Advances(id, 5));
    AdvanceOnce(w, w.db, id, email, ReadCurrent, Advances(id, 4));
    AdvanceOnce(w, w.db, id, email, ReadClaim, Advances(id, 3));
  }

  lemma WritesCompose(db: Db, id: string, newEmail: string)
    requires WellFormed(db) && Moves(db, id, newEmail)
    ensures var key := ToLower(Trim(newEmail));
            var claim := Claim(db, key, id, true);
            claim.1 && Move(RevokeAllVerified(claim.0, id, key), id, key).0 == SetPrimaryEmail(db, id, newEmail).1
  {
    ChangeIsAllOrNothing(db, id, newEmail);
  }

  lemma WritesApply(w: World, id: string, newEmail: string)
    requires Sound(w) && Moves(w.db, id, newEmail) && id !in w.changes
    ensures Run(With(w, w.db, id, Trim(newEmail), WriteClaim), Advances(id, 3))
            == w.(db := SetPrimaryEmail(w.db, id, newEmail).1)
  {
    WritesCompose(w.db, id, newEmail);
    RunWrites(w, id, Trim(newEmail), SetPrimaryEmail(w.db, id, newEmail).1);
  }

  lemma RunWrites(w: World, id: string, email: string, after: Db)
    requires id !in w.changes
    requires var key := ToLower(email);
             var claim := Claim(w.db, key, id, true);
             claim.1 && Move(RevokeAllVerified(claim.0, id, key), id, key).0 == after
    ensures Run(With(w, w.db, id, email, WriteClaim), Advances(id, 3)) == w.(db := after)
  {
    var key := ToLower(email);
    var claim := Claim(w.db, key, id, true).0;
    AdvanceOnce(w, w.db, id, email, WriteClaim, Advances(id, 2));
    AdvanceOnce(w, claim, id, email, Revoking, Advances(id, 1));
    AdvanceOnce(w, RevokeAllVerified(claim, id, key), id, email, Moving, Advances(id, 0));
    assert w.changes - {id} == w.changes;
  }

  lemma RunStep(w: World, s: Step, rest: seq<Step>)
    ensures Run(w, [s] + rest) == Run(Next(w, s), rest)
  {
    assert ([s] + rest)[1..] == rest;
  }

  /** Two changes of one account at once can revoke each other's claims: claim, claim, revoke, revoke
      leaves the account with no address at all. */
  lemma TwoChangesAtOnceLockOut(db: Db, anchor: string, id: string, a: string, b: string)
    requires WellFormed(db) && IsAccount(db, anchor, id)
    requires a != b && Clean(a) && Clean(b) && a !in db.registry && b !in db.registry
    requires db.users[anchor].current.Some? && db.users[anchor].current.value in db.registry
    requires db.registry[db.users[anchor].current.value] == RegistryRow(id, true)
    ensures var claimed := Claim(Claim(db, a, id, true).0, b, id, true).0;
            var revoked := RevokeAllVerified(RevokeAllVerified(claimed, id, a), id, b);
            forall presented :: !ResolvesTo(revoked, presented, id)
  {
    var claimed := Claim(Claim(db, a, id, true).0, b, id, true).0;
    var revoked := RevokeAllVerified(RevokeAllVerified(claimed, id, a), id, b);
    assert WellFormed(revoked);
    forall presented ensures !ResolvesTo(revoked, presented, id) {
      OpensAccount(revoked, anchor, id, presented);
    }
  }

  /* ----- the registry under any run of claims and revokes ----- */

  datatype Statement = Upsert(key: string, id: string, verified: bool) | Revoke(id: string, except: string)

  function Apply(registry: map<string, RegistryRow>, s: Statement): map<string, RegistryRow> {
    match s
    case Upsert(key, id, verified) => Claim(Db(map[], registry), key, id, verified).0.registry
    case Revoke(id, except) => RevokeAllVerified(Db(map[], registry), id, except).registry
  }

  /** The registry after the first `n` statements of a run. */
  function After(registry: map<string, RegistryRow>, run: seq<Statement>, n: nat): map<string, RegistryRow>
    requires n <= |run|
  {
    if n == 0 then registry else Apply(After(registry, run, n - 1), run[n - 1])
  }

  /** The statement at `i` is a verified claim of `key` that the database answers with a changed row. */
  predicate WinsAt(registry: map<string, RegistryRow>, run: seq<Statement>, i: nat, key: string)
    requires i < |run|
  {
    && run[i].Upsert? && run[i].key == key && run[i].verified
    && Claim(Db(map[], After(registry, run, i)), key, run[i].id, true).1
  }

  predicate VerifiedAt(registry: map<string, RegistryRow>, key: string) {
    key in registry && registry[key].verified
  }

  /** A row that stays verified never changes holder. */
  lemma {:induction false} HolderIsFixedWhileVerified(registry: map<string, RegistryRow>, run: seq<Statement>, i: nat,
                                                      j: nat, key: string)
    requires i <= j <= |run|
    requires forall n: nat :: i <= n <= j ==> VerifiedAt(After(registry, run, n), key)
    ensures VerifiedAt(After(registry, run, i), key) && VerifiedAt(After(registry, run, j), key)
    ensures After(registry, run, j)[key] == After(registry, run, i)[key]
    decreases j
  {
    if i < j { HolderIsFixedWhileVerified(registry, run, i, j - 1, key); }
  }

  /** A revoke at `n` that reaches the row of `key`. */
  predicate RevokedAt(registry: map<string, RegistryRow>, run: seq<Statement>, n: nat, key: string)
    requires n < |run|
  {
    && run[n].Revoke? && key != run[n].except
    && VerifiedAt(After(registry, run, n), key) && After(registry, run, n)[key].userId == run[n].id
  }

  lemma {:induction false} StaysVerifiedUntilRevoked(registry: map<string, RegistryRow>, run: seq<Statement>, i: nat,
                                                     j: nat, key: string)
    requires i <= j <= |run| && VerifiedAt(After(registry, run, i), key)
    requires forall n :: i <= n < j ==> !RevokedAt(registry, run, n, key)
    ensures VerifiedAt(After(registry, run, j), key)
    decreases j
  {
    if i < j {
      StaysVerifiedUntilRevoked(registry, run, i, j - 1, key);
      assert !RevokedAt(registry, run, j - 1, key);
    }
  }

  /** Of all verified claims of one address, whoever makes them, only one is answered `claimed` until a
      revoke reaches the row. */
  lemma OneWinnerUntilRevoked(registry: map<string, RegistryRow>, run: seq<Statement>, i: nat, j: nat, key: string)
    requires i < j < |run| && WinsAt(registry, run, i, key) && WinsAt(registry, run, j, key)
    ensures exists n :: i < n < j && RevokedAt(registry, run, n, key)
  {
    if forall n :: i < n < j ==> !RevokedAt(registry, run, n, key) {
      StaysVerifiedUntilRevoked(registry, run, i + 1, j, key);
      assert false;
    }
  }
}
