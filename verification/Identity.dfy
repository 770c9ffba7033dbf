/**
 Accounts, their addresses, and how a sign-in address resolves.

 `users` is the `user_metadata` table keyed by its frozen anchor address; `registry` is `user_emails`.
 */
module Identity {
  import opened Prelude
  import opened Text

  datatype MetaRow = MetaRow(id: Option<string>, current: Option<string>)

  datatype RegistryRow = RegistryRow(userId: string, verified: bool)

  datatype Db = Db(users: map<string, MetaRow>, registry: map<string, RegistryRow>)

  datatype Account = Account(id: string, email: string, anchor: string)

  /** What every user-keyed statement is matched against. */
  datatype Owner = Owner(userId: Option<string>, anchor: string)

  /** A stored address: lower case, trimmed, not empty. */
  predicate Clean(key: string) {
    key != "" && ToLower(key) == key && Trim(key) == key
  }

  /** The table's own rules: unique ids, unique current addresses, clean stored addresses, and an id for
      every account that was given a current address. */
  ghost predicate WellFormed(db: Db) {
    WellFormedUsers(db.users) && forall k :: k in db.registry ==> Clean(k)
  }

  ghost predicate WellFormedUsers(users: map<string, MetaRow>) {
    && (forall a, b :: a in users && b in users && users[a].id.Some? && users[a].id == users[b].id ==> a == b)
    && (forall a, b ::
          a in users && b in users && users[a].current.Some? && users[a].current == users[b].current ==> a == b)
    && (forall a :: a in users && users[a].current.Some? ==> Clean(users[a].current.value) && Truthy(users[a].id))
  }

  ghost function ById(users: map<string, MetaRow>, id: string): (r: Option<string>)
    ensures r.Some? ==> r.value in users && users[r.value].id == Some(id)
    ensures r.None? ==> forall a :: a in users ==> users[a].id != Some(id)
  {
    if a :| a in users && users[a].id == Some(id) then Some(a) else None
  }

  ghost function ByCurrent(users: map<string, MetaRow>, key: string): (r: Option<string>)
    ensures r.Some? ==> r.value in users && users[r.value].current == Some(key)
    ensures r.None? ==> forall a :: a in users ==> users[a].current != Some(key)
  {
    if a :| a in users && users[a].current == Some(key) then Some(a) else None
  }

  /** The address an account shows: its current one, else its anchor. */
  function Shown(anchor: string, row: MetaRow): string {
    Trim(if row.current.Some? then row.current.value else anchor)
  }

  ghost function Hydrate(db: Db, id: string): Option<Account> {
    match ById(db.users, id)
    case None => None
    case Some(a) => if id == "" then None else Some(Account(id, Shown(a, db.users[a]), a))
  }

  function FindByAnchor(db: Db, address: string): Option<Account> {
    if address !in db.users then None
    else
      var row := db.users[address];
      if row.current.Some? && ToLower(Trim(row.current.value)) != ToLower(Trim(address)) then None
      else Some(Account(if row.id.Some? then row.id.value else "", Shown(address, row), address))
  }

  /** `resolveAccount`: registry first, then the current address, then the anchor. */
  ghost function Resolve(db: Db, presented: string): Option<Account> {
    var address := Trim(presented);
    var key := ToLower(address);
    if address == "" then None
    else if key in db.registry then
      if db.registry[key].verified then Hydrate(db, db.registry[key].userId) else None
    else
      match ByCurrent(db.users, key)
      case Some(a) =>
        if Truthy(db.users[a].id) then Some(Account(db.users[a].id.value, Shown(a, db.users[a]), a))
        else FindByAnchor(db, address)
      case None => FindByAnchor(db, address)
  }

  /** An unknown address still yields an owner, with no id. */
  ghost function OwnerOf(db: Db, presented: string): Owner {
    match Resolve(db, presented)
    case None => Owner(None, presented)
    case Some(account) => Owner(if account.id == "" then None else Some(account.id), account.anchor)
  }

  ghost predicate ResolvesTo(db: Db, presented: string, id: string) {
    Resolve(db, presented).Some? && Resolve(db, presented).value.id == id
  }

  ghost predicate IsAccount(db: Db, anchor: string, id: string) {
    id != "" && anchor in db.users && db.users[anchor].id == Some(id)
  }

  ghost predicate Opens(db: Db, anchor: string, id: string, address: string)
    requires anchor in db.users
  {
    var key := ToLower(address);
    && address != ""
    && if key in db.registry then db.registry[key] == RegistryRow(id, true)
       else || db.users[anchor].current == Some(key)
            || (db.users[anchor].current.None? && address == anchor && ByCurrent(db.users, key).None?)
  }

  /** Which addresses open an account: its verified registry rows; its current address while that has no
      row; and, while neither store knows the address, its anchor if it never moved away from it. */
  lemma OpensAccount(db: Db, anchor: string, id: string, presented: string)
    requires WellFormed(db) && IsAccount(db, anchor, id)
    ensures ResolvesTo(db, presented, id) <==> Opens(db, anchor, id, Trim(presented))
    ensures ResolvesTo(db, presented, id) ==>
            OwnerOf(db, presented) == Owner(Some(id), anchor)
  {
    var address := Trim(presented);
    var key := ToLower(address);
    if address in db.users && db.users[address].current.Some? {
      assert Clean(db.users[address].current.value);
    }
    TrimTwice(presented);
  }

  /** Whichever of the three paths finds it, a resolved account is a row of the table: it has the row's id, the
      row's key for its anchor, and shows the row's current address, or the anchor while there is none. */
  lemma ResolvedShowsItsRow(db: Db, presented: string)
    requires WellFormed(db) && Resolve(db, presented).Some?
    ensures var account := Resolve(db, presented).value;
            && account.anchor in db.users
            && (|| db.users[account.anchor].id == Some(account.id)
                || (account.id == "" && db.users[account.anchor].id.None?))
            && match db.users[account.anchor].current
               case Some(current) => account.email == current
               case None => account.email == Trim(account.anchor)
  {}

  /** A row without an id is reached by its anchor alone, and only while neither store knows that address. */
  lemma RowWithoutIdResolves(db: Db, anchor: string, presented: string)
    requires WellFormed(db) && anchor in db.users && !Truthy(db.users[anchor].id)
    ensures Resolve(db, presented) == Some(Account("", Trim(anchor), anchor)) <==>
              && Trim(presented) == anchor != ""
              && ToLower(anchor) !in db.registry
              && forall a :: a in db.users ==> db.users[a].current != Some(ToLower(anchor))
  {
    TrimTwice(presented);
  }

  lemma {:induction false} TrimStartTwice(s: string)
    ensures TrimStart(TrimStart(s)) == TrimStart(s)
    ensures TrimStart(s) == "" || !IsSpace(TrimStart(s)[0])
  {
    if |s| > 0 && IsSpace(s[0]) { TrimStartTwice(s[1..]); }
  }

  lemma {:induction false} TrimEndKeepsStart(s: string)
    ensures TrimEnd(TrimEnd(s)) == TrimEnd(s)
    ensures |TrimEnd(s)| <= |s| && TrimEnd(s) == s[..|TrimEnd(s)|]
  {
    if |s| > 0 && IsSpace(s[|s| - 1]) { TrimEndKeepsStart(s[..|s| - 1]); }
  }

  lemma TrimTwice(s: string)
    ensures Trim(Trim(s)) == Trim(s)
  {
    TrimStartTwice(s);
    TrimEndKeepsStart(TrimStart(s));
    assert TrimStart(Trim(s)) == Trim(s);
  }

  /* ----- the statements that change the tables, each atomic ----- */

  /** The conditional upsert of `register`: an address held by a verified row is left alone. */
  function Claim(db: Db, key: string, id: string, verified: bool): (Db, bool) {
    if key in db.registry && db.registry[key].verified then (db, false)
    else (db.(registry := db.registry[key := RegistryRow(id, verified)]), true)
  }

  function RevokeAllVerified(db: Db, id: string, except: string): Db {
    db.(registry := map k | k in db.registry ::
          if db.registry[k].userId == id && k != except then RegistryRow(id, false) else db.registry[k])
  }

  /** The move of the current address; the unique index refuses an address another row holds. */
  ghost function Move(db: Db, id: string, key: string): (Db, bool) {
    match ById(db.users, id)
    case None => (db, true)
    case Some(a) =>
      if ByCurrent(db.users, key).Some? && ByCurrent(db.users, key).value != a then (db, false)
      else (db.(users := db.users[a := db.users[a].(current := Some(key))]), true)
  }

  /** `INSERT OR IGNORE` of a new account: any clash on anchor, id or current address drops it. */
  ghost function Provision(db: Db, anchor: string, id: string): Db {
    if anchor in db.users || ById(db.users, id).Some? || ByCurrent(db.users, ToLower(anchor)).Some? then db
    else db.(users := db.users[anchor := MetaRow(Some(id), Some(ToLower(anchor)))])
  }

  lemma ClaimKeepsWellFormed(db: Db, key: string, id: string, verified: bool)
    requires WellFormed(db) && Clean(key)
    ensures WellFormed(Claim(db, key, id, verified).0)
  {}

  lemma RevokeKeepsWellFormed(db: Db, id: string, except: string)
    requires WellFormed(db)
    ensures WellFormed(RevokeAllVerified(db, id, except))
  {}

  lemma MoveKeepsWellFormed(db: Db, id: string, key: string)
    requires WellFormed(db) && Clean(key) && id != ""
    ensures WellFormed(Move(db, id, key).0)
  {
    var holder := ByCurrent(db.users, key);
    if ById(db.users, id).Some? && (holder.None? || holder.value == ById(db.users, id).value) {
      var a := ById(db.users, id).value;
      var after := Move(db, id, key).0;
      forall x | x in db.users && x != a ensures db.users[x].current != Some(key) {}
    }
  }

  lemma ProvisionKeepsWellFormed(db: Db, anchor: string, id: string)
    requires WellFormed(db) && Clean(ToLower(anchor)) && id != ""
    ensures WellFormed(Provision(db, anchor, id))
  {}

  /* ----- the whole change, with nobody else running ----- */

  /** One `@`; a non-empty local part; a domain of at least one character, a dot that is not its first
      character and is the first dot after it, and something after that dot; no white space. */
  predicate ValidEmail(s: string) {
    && (forall i :: 0 <= i < |s| ==> !IsSpace(s[i]))
    && exists at, dot ::
         && 1 <= at < |s| && 0 <= dot < |s| - 1 && at + 1 < dot
         && s[at] == '@' && s[dot] == '.'
         && (forall i :: 0 <= i < |s| && i != at ==> s[i] != '@')
         && (forall i :: at + 2 <= i < dot ==> s[i] != '.')
  }

  /** Put together from its parts. */
  ghost predicate IsComposedEmail(s: string, local: string, first: char, middle: string, rest: string) {
    && s == local + "@" + [first] + middle + "." + rest
    && |local| >= 1 && |rest| >= 1
    && '@' !in local && first != '@' && '@' !in middle && '.' !in middle && '@' !in rest
    && forall i :: 0 <= i < |s| ==> !IsSpace(s[i])
  }

  /** An address is a local part, one `@`, a domain whose dot is not its first character, and something after
      that dot; and every such string without white space is one. */
  lemma ValidEmailIsComposed(s: string)
    ensures ValidEmail(s) <==> exists local, first, middle, rest :: IsComposedEmail(s, local, first, middle, rest)
  {
    if ValidEmail(s) {
      var at, dot :| && 1 <= at < |s| && 0 <= dot < |s| - 1 && at + 1 < dot && s[at] == '@' && s[dot] == '.'
                     && (forall i :: 0 <= i < |s| && i != at ==> s[i] != '@')
                     && (forall i :: at + 2 <= i < dot ==> s[i] != '.');
      ValidIsComposed(s, at, dot);
    }
    if local, first, middle, rest :| IsComposedEmail(s, local, first, middle, rest) {
      ComposedIsValid(local, first, middle, rest);
    }
  }

  lemma ValidIsComposed(s: string, at: int, dot: int)
    requires 1 <= at < |s| && 0 <= dot < |s| - 1 && at + 1 < dot && s[at] == '@' && s[dot] == '.'
    requires forall i :: 0 <= i < |s| && i != at ==> s[i] != '@'
    requires forall i :: at + 2 <= i < dot ==> s[i] != '.'
    requires forall i :: 0 <= i < |s| ==> !IsSpace(s[i])
    ensures IsComposedEmail(s, s[..at], s[at + 1], s[at + 2..dot], s[dot + 1..])
  {
    assert s == s[..at] + "@" + [s[at + 1]] + s[at + 2..dot] + "." + s[dot + 1..];
  }

  lemma ComposedIsValid(local: string, first: char, middle: string, rest: string)
    requires IsComposedEmail(local + "@" + [first] + middle + "." + rest, local, first, middle, rest)
    ensures ValidEmail(local + "@" + [first] + middle + "." + rest)
  {
    var s := local + "@" + [first] + middle + "." + rest;
    var at, dot := |local|, |local| + 2 + |middle|;
    assert s[at] == '@' && s[dot] == '.' && s[at + 1] == first;
    forall i | 0 <= i < |s| && i != at ensures s[i] != '@' {
      if i < at { assert s[i] == local[i]; }
      else if at + 1 < i < dot { assert s[i] == middle[i - at - 2]; }
      else if i > dot { assert s[i] == rest[i - dot - 1]; }
    }
    forall i | at + 2 <= i < dot ensures s[i] != '.' { assert s[i] == middle[i - at - 2]; }
  }

  datatype ChangeError = InvalidAddress | UserNotFound | InUse | IndexViolation

  /** Already a live login of some other account: its verified registry row, or its current address. */
  ghost predicate ClaimedByOther(db: Db, email: string, id: string) {
    var key := ToLower(email);
    || (key in db.registry && db.registry[key].verified && db.registry[key].userId != id)
    || (&& ByCurrent(db.users, key).Some?
        && var holder := db.users[ByCurrent(db.users, key).value]; Truthy(holder.id) && holder.id != Some(id))
  }

  ghost function SetPrimaryEmail(db: Db, id: string, newEmail: string): (Result<Account, ChangeError>, Db) {
    var email := Trim(newEmail);
    if !ValidEmail(email) then (Err(InvalidAddress), db)
    else if ById(db.users, id).None? || id == "" then (Err(UserNotFound), db)
    else
      var anchor := ById(db.users, id).value;
      var current := Shown(anchor, db.users[anchor]);
      if ToLower(current) == ToLower(email) then (Ok(Account(id, current, anchor)), db)
      else if ClaimedByOther(db, email, id) then (Err(InUse), db)
      else
        var claim := Claim(db, ToLower(email), id, true);
        if !claim.1 then (Err(InUse), db)
        else
          var revoked := RevokeAllVerified(claim.0, id, ToLower(email));
          var moved := Move(revoked, id, ToLower(email));
          if !moved.1 then (Err(IndexViolation), revoked) else (Ok(Account(id, email, anchor)), moved.0)
  }

  /** The change really moves the account: the address is usable, differs from the present one and is
      nobody's verified address, the account's own linked ones included, nor another's current one. */
  ghost predicate Moves(db: Db, id: string, newEmail: string) {
    var email := Trim(newEmail);
    var key := ToLower(email);
    && ValidEmail(email)
    && id != "" && ById(db.users, id).Some?
    && ToLower(Shown(ById(db.users, id).value, db.users[ById(db.users, id).value])) != key
    && !(key in db.registry && db.registry[key].verified)
    && (ByCurrent(db.users, key).None? || ByCurrent(db.users, key).value == ById(db.users, id).value)
  }

  lemma ValidEmailIsClean(email: string)
    requires ValidEmail(email)
    ensures Clean(ToLower(email))
  {
    ToLowerTwice(email);
    TrimOfUnspaced(ToLower(email));
  }

  /** Undisturbed, a change either moves the account or leaves both tables as they were. */
  lemma ChangeIsAllOrNothing(db: Db, id: string, newEmail: string)
    requires WellFormed(db)
    ensures var (r, after) := SetPrimaryEmail(db, id, newEmail);
            && (Moves(db, id, newEmail) <==> after != db)
            && (Moves(db, id, newEmail) ==> r.Ok?)
            && r != Err(IndexViolation)
            && WellFormed(after)
  {
    var email := Trim(newEmail);
    var key := ToLower(email);
    if Moves(db, id, newEmail) {
      var anchor := ById(db.users, id).value;
      ValidEmailIsClean(email);
      var claim := Claim(db, key, id, true);
      ClaimKeepsWellFormed(db, key, id, true);
      var revoked := RevokeAllVerified(claim.0, id, key);
      RevokeKeepsWellFormed(claim.0, id, key);
      MoveKeepsWellFormed(revoked, id, key);
      assert ById(revoked.users, id) == Some(anchor);
      assert ByCurrent(revoked.users, key).None?;
    }
  }

  /** What a change answers: why it is refused, the present address when that is the one asked for, or the
      new one. */
  lemma ChangeAnswers(db: Db, id: string, newEmail: string)
    requires WellFormed(db)
    ensures var email := Trim(newEmail);
            var known := id != "" && exists a :: a in db.users && db.users[a].id == Some(id);
            var r := SetPrimaryEmail(db, id, newEmail).0;
            && (r == Err(InvalidAddress) <==> !ValidEmail(email))
            && (r == Err(UserNotFound) <==> ValidEmail(email) && !known)
            && (r.Ok? ==> known && r.value.id == id && IsAccount(db, r.value.anchor, id))
            && (r.Ok? && !Moves(db, id, newEmail) ==>
                  && ToLower(r.value.email) == ToLower(email)
                  && r.value.email == Shown(r.value.anchor, db.users[r.value.anchor]))
            && (Moves(db, id, newEmail) ==> r.Ok? && r.value.email == email)
            && (r == Err(InUse) <==>
                  && ValidEmail(email) && known && !Moves(db, id, newEmail)
                  && forall a :: IsAccount(db, a, id) ==> ToLower(Shown(a, db.users[a])) != ToLower(email))
  {
    ChangeIsAllOrNothing(db, id, newEmail);
  }

  /** What a completed change leaves: the account under its new address, its rows revoked but the new. */
  ghost predicate Changed(db: Db, after: Db, anchor: string, id: string, key: string) {
    && WellFormed(db) && WellFormed(after) && Clean(key) && IsAccount(db, anchor, id)
    && after.users == db.users[anchor := MetaRow(Some(id), Some(key))]
    && ByCurrent(db.users, key).None?
    && (key in db.registry ==> !db.registry[key].verified)
    && (forall k :: k in after.registry <==> k in db.registry || k == key)
    && after.registry[key] == RegistryRow(id, true)
    && (forall k :: k in db.registry && k != key ==>
          after.registry[k] == if db.registry[k].userId == id then RegistryRow(id, false) else db.registry[k])
  }

  lemma ChangeEffect(db: Db, id: string, newEmail: string)
    requires WellFormed(db) && Moves(db, id, newEmail)
    ensures var (r, after) := SetPrimaryEmail(db, id, newEmail);
            && Changed(db, after, ById(db.users, id).value, id, ToLower(Trim(newEmail)))
            && r == Ok(Account(id, Trim(newEmail), ById(db.users, id).value))
  {
    ChangeIsAllOrNothing(db, id, newEmail);
    ValidEmailIsClean(Trim(newEmail));
    var key := ToLower(Trim(newEmail));
    var claim := Claim(db, key, id, true);
    var revoked := RevokeAllVerified(claim.0, id, key);
    assert ById(revoked.users, id) == ById(db.users, id);
    assert ByCurrent(revoked.users, key).None?;
  }

  lemma ChangedOpensNewOnly(db: Db, after: Db, anchor: string, id: string, key: string, address: string)
    requires Changed(db, after, anchor, id, key)
    ensures Opens(after, anchor, id, address) <==> ToLower(address) == key
  {}

  lemma ChangedSparesOthers(db: Db, after: Db, anchor: string, id: string, key: string, other: string,
                            otherId: string, address: string)
    requires Changed(db, after, anchor, id, key)
    requires IsAccount(db, other, otherId) && otherId != id
    requires || db.users[other].current.Some?
             || ToLower(other) in db.registry
             || (ToLower(other) != key && db.users[anchor].current != Some(ToLower(other)))
    ensures Opens(after, other, otherId, address) <==> Opens(db, other, otherId, address)
  {
    assert other != anchor && after.users[other] == db.users[other];
    var k := ToLower(address);
    if k != key && k !in db.registry && db.users[other].current.None? && address == other {
      assert forall a :: a in db.users ==> (after.users[a].current == Some(k) <==> db.users[a].current == Some(k));
    }
  }

  lemma ChangedTouchesUnmoved(db: Db, after: Db, anchor: string, id: string, key: string, other: string,
                              otherId: string)
    requires Changed(db, after, anchor, id, key)
    requires IsAccount(db, other, otherId) && otherId != id && db.users[other].current.None? && other != ""
    requires ToLower(other) !in db.registry
    requires ToLower(other) == key || db.users[anchor].current == Some(ToLower(other))
    ensures Opens(after, other, otherId, other) != Opens(db, other, otherId, other)
  {
    var k := ToLower(other);
    assert other != anchor;
    if k != key {
      assert forall a :: a in db.users ==> after.users[a].current != Some(k);
    }
  }

  /** A completed change leaves exactly the new address opening the account, up to case and surrounding
      white space. */
  lemma ChangedAccountOpensByNewAddressOnly(db: Db, id: string, newEmail: string, presented: string)
    requires WellFormed(db) && Moves(db, id, newEmail)
    ensures ResolvesTo(SetPrimaryEmail(db, id, newEmail).1, presented, id)
        <==> ToLower(Trim(presented)) == ToLower(Trim(newEmail))
  {
    ChangeEffect(db, id, newEmail);
    var after := SetPrimaryEmail(db, id, newEmail).1;
    OpensAccount(after, ById(db.users, id).value, id, presented);
    ChangedOpensNewOnly(db, after, ById(db.users, id).value, id, ToLower(Trim(newEmail)), Trim(presented));
  }

  /** And the new address shows the account as it now is: the new address, in lower case, over the same anchor. */
  lemma ChangedAccountShowsNewAddress(db: Db, id: string, newEmail: string)
    requires WellFormed(db) && Moves(db, id, newEmail)
    ensures exists anchor :: IsAccount(db, anchor, id)
              && Resolve(SetPrimaryEmail(db, id, newEmail).1, newEmail)
                 == Some(Account(id, ToLower(Trim(newEmail)), anchor))
  {
    ChangeEffect(db, id, newEmail);
    var after := SetPrimaryEmail(db, id, newEmail).1;
    var anchor := ById(db.users, id).value;
    ChangedAccountOpensByNewAddressOnly(db, id, newEmail, newEmail);
    OpensAccount(after, anchor, id, newEmail);
    ResolvedShowsItsRow(after, newEmail);
    assert IsAccount(db, anchor, id);
  }

  /** Everyone else who has a current address keeps exactly the addresses that opened their account. */
  lemma ChangeLeavesOthersAlone(db: Db, id: string, newEmail: string, anchor: string, other: string, presented: string)
    requires WellFormed(db) && Moves(db, id, newEmail)
    requires IsAccount(db, anchor, other) && other != id && db.users[anchor].current.Some?
    ensures ResolvesTo(SetPrimaryEmail(db, id, newEmail).1, presented, other) <==> ResolvesTo(db, presented, other)
  {
    ChangeEffect(db, id, newEmail);
    var after := SetPrimaryEmail(db, id, newEmail).1;
    OpensAccount(db, anchor, other, presented);
    OpensAccount(after, anchor, other, presented);
    ChangedSparesOthers(db, after, ById(db.users, id).value, id, ToLower(Trim(newEmail)), anchor, other,
                        Trim(presented));
  }

  /** An account left without a current address is reached by its anchor only while no store knows that
      address. A change to a case variant of it takes the address over, and a change away from one gives
      it back; nothing else touches it. */
  lemma ChangeAndTheAccountWithoutCurrentAddress(db: Db, id: string, newEmail: string, anchor: string, other: string)
    requires WellFormed(db) && Moves(db, id, newEmail)
    requires IsAccount(db, anchor, other) && other != id && db.users[anchor].current.None?
    requires Trim(anchor) == anchor && anchor != ""
    ensures (forall presented ::
               ResolvesTo(SetPrimaryEmail(db, id, newEmail).1, presented, other) <==> ResolvesTo(db, presented, other))
        <==> var key := ToLower(anchor);
             || key in db.registry
             || (key != ToLower(Trim(newEmail)) && db.users[ById(db.users, id).value].current != Some(key))
  {
    ChangeEffect(db, id, newEmail);
    var after := SetPrimaryEmail(db, id, newEmail).1;
    var mover := ById(db.users, id).value;
    var key := ToLower(anchor);
    if key in db.registry || (key != ToLower(Trim(newEmail)) && db.users[mover].current != Some(key)) {
      forall presented ensures ResolvesTo(after, presented, other) <==> ResolvesTo(db, presented, other) {
        OpensAccount(db, anchor, other, presented);
        OpensAccount(after, anchor, other, presented);
        ChangedSparesOthers(db, after, mover, id, ToLower(Trim(newEmail)), anchor, other, Trim(presented));
      }
    } else {
      ChangedTouchesUnmoved(db, after, mover, id, ToLower(Trim(newEmail)), anchor, other);
      OpensAccount(db, anchor, other, anchor);
      OpensAccount(after, anchor, other, anchor);
    }
  }

  /** The rows an owner-keyed read returns: by id, or by anchor for rows without one. */
  predicate OwnerMatches(o: Owner, rowId: Option<string>, rowEmail: string) {
    (rowId.Some? && o.userId == rowId) || (rowId.None? && rowEmail == o.anchor)
  }

  /** What a caller reads: an account reads the rows under its id and the rows without an id under its anchor;
      a caller without an account reads the rows without an id under the address presented. */
  lemma OwnerReads(db: Db, presented: string, rowId: Option<string>, rowEmail: string)
    requires WellFormed(db)
    ensures OwnerMatches(OwnerOf(db, presented), rowId, rowEmail) <==>
              match rowId
              case Some(id) => id != "" && ResolvesTo(db, presented, id)
              case None =>
                rowEmail == (if Resolve(db, presented).Some? then Resolve(db, presented).value.anchor else presented)
  {}

  /** No row is read by two accounts. */
  lemma NoRowHasTwoReaders(db: Db, p: string, q: string, rowId: Option<string>, rowEmail: string)
    requires WellFormed(db) && Resolve(db, p).Some? && Resolve(db, q).Some?
    requires OwnerMatches(OwnerOf(db, p), rowId, rowEmail) && OwnerMatches(OwnerOf(db, q), rowId, rowEmail)
    ensures Resolve(db, p) == Resolve(db, q)
  {
    ResolvedShowsItsRow(db, p);
    ResolvedShowsItsRow(db, q);
    OwnerReads(db, p, rowId, rowEmail);
    OwnerReads(db, q, rowId, rowEmail);
  }

  /** After the change, the new address owns exactly the rows any earlier address of the account owned. */
  lemma ChangeKeepsOwnedRows(db: Db, id: string, newEmail: string, earlier: string, rowId: Option<string>,
                             rowEmail: string)
    requires WellFormed(db) && Moves(db, id, newEmail) && ResolvesTo(db, earlier, id)
    ensures var after := SetPrimaryEmail(db, id, newEmail).1;
            && OwnerOf(after, newEmail) == OwnerOf(db, earlier)
            && (OwnerMatches(OwnerOf(after, newEmail), rowId, rowEmail)
                <==> OwnerMatches(OwnerOf(db, earlier), rowId, rowEmail))
  {
    ChangeEffect(db, id, newEmail);
    var after := SetPrimaryEmail(db, id, newEmail).1;
    OpensAccount(db, ById(db.users, id).value, id, earlier);
    OpensAccount(after, ById(db.users, id).value, id, newEmail);
    ChangedOpensNewOnly(db, after, ById(db.users, id).value, id, ToLower(Trim(newEmail)), Trim(newEmail));
  }
}
