/**
 The address tables and the services over them, statement by statement, proved against the functions
 of module Identity. The unique indexes on `id` and `current_email` are the tables' own guarantee.
 */
module AddressServices {
  import opened Prelude
  import opened Text
  import opened Identity

  class UserEmailDAO {
    var registry: map<string, RegistryRow>

    constructor (registry: map<string, RegistryRow>)
      ensures this.registry == registry
    {
      this.registry := registry;
    }

    /** A read, then an upsert whose own condition decides: the read alone would not be enough. */
    method Register(email: string, userId: string, isVerified: bool) returns (claimed: bool)
      modifies this
      ensures Claim(Db(map[], old(registry)), ToLower(email), userId, isVerified) == (Db(map[], registry), claimed)
    {
      var key := ToLower(email);
      if key in registry && registry[key].verified { return false; }
      claimed := ConditionalUpsert(key, userId, isVerified);
    }

    method ConditionalUpsert(key: string, userId: string, isVerified: bool) returns (changed: bool)
      modifies this
      ensures Claim(Db(map[], old(registry)), key, userId, isVerified) == (Db(map[], registry), changed)
      ensures changed <==> !(key in old(registry) && old(registry)[key].verified)
      ensures registry == if changed then old(registry)[key := RegistryRow(userId, isVerified)] else old(registry)
    {
      if key !in registry {
        registry := registry[key := RegistryRow(userId, isVerified)];
        return true;
      }
      if registry[key].verified { return false; }
      registry := registry[key := registry[key].(userId := userId, verified := isVerified)];
      return true;
    }

    method RevokeAllVerified(userId: string, exceptEmail: string)
      modifies this
      ensures Db(map[], registry) == Identity.RevokeAllVerified(Db(map[], old(registry)), userId, ToLower(exceptEmail))
    {
      registry := map k | k in registry ::
        if registry[k].userId == userId && k != ToLower(exceptEmail) then registry[k].(verified := false)
        else registry[k];
    }
  }

  class UserMetadataDAO {
    var users: map<string, MetaRow>

    constructor (users: map<string, MetaRow>)
      ensures this.users == users
    {
      this.users := users;
    }

    method GetById(id: string) returns (anchor: Option<string>)
      requires WellFormedUsers(users)
      ensures anchor == ById(users, id)
    {
      var rows := set a | a in users && users[a].id == Some(id);
      if rows == {} {
        assert forall a :: a in users && users[a].id == Some(id) ==> a in rows;
        return None;
      }
      var a :| a in rows;
      return Some(a);
    }

    method GetByCurrentEmail(email: string) returns (anchor: Option<string>)
      requires WellFormedUsers(users)
      ensures anchor == ByCurrent(users, ToLower(email))
    {
      var key := ToLower(email);
      var rows := set a | a in users && users[a].current == Some(key);
      if rows == {} {
        assert forall a :: a in users && users[a].current == Some(key) ==> a in rows;
        return None;
      }
      var a :| a in rows;
      return Some(a);
    }

    /** The unique index refuses an address that another row holds. */
    method SetCurrentEmail(id: string, email: string) returns (stored: bool)
      requires WellFormedUsers(users)
      modifies this
      ensures Move(Db(old(users), map[]), id, ToLower(email)) == (Db(users, map[]), stored)
    {
      var anchor := GetById(id);
      if anchor.None? { return true; }
      var holder := GetByCurrentEmail(email);
      if holder.Some? && holder.value != anchor.value { return false; }
      users := users[anchor.value := users[anchor.value].(current := Some(ToLower(email)))];
      return true;
    }

    method EnsureUserEmailExists(anchor: string, newId: string)
      requires WellFormedUsers(users)
      modifies this
      ensures Db(users, map[]) == Provision(Db(old(users), map[]), anchor, newId)
    {
      if anchor in users { return; }
      var sameId := GetById(newId);
      if sameId.Some? { return; }
      var sameCurrent := GetByCurrentEmail(anchor);
      if sameCurrent.Some? { return; }
      users := users[anchor := MetaRow(Some(newId), Some(ToLower(anchor)))];
    }
  }

  class AddressRegistryService {
    const emails: UserEmailDAO
    const users: UserMetadataDAO

    constructor (emails: UserEmailDAO, users: UserMetadataDAO)
      ensures this.emails == emails && this.users == users
    {
      this.emails := emails;
      this.users := users;
    }

    ghost function Tables(): Db
      reads emails, users
    {
      Db(users.users, emails.registry)
    }

    method IsClaimedByOther(email: string, id: string) returns (claimed: bool)
      requires WellFormed(Tables())
      ensures claimed <==> ClaimedByOther(Tables(), email, id)
      ensures claimed <==>
                || (&& ToLower(email) in emails.registry && emails.registry[ToLower(email)].verified
                    && emails.registry[ToLower(email)].userId != id)
                || exists a :: a in users.users && users.users[a].current == Some(ToLower(email))
                     && Truthy(users.users[a].id) && users.users[a].id != Some(id)
    {
      var key := ToLower(email);
      if key in emails.registry && emails.registry[key].verified && emails.registry[key].userId != id { return true; }
      var owner := users.GetByCurrentEmail(email);
      return owner.Some? && Truthy(users.users[owner.value].id) && users.users[owner.value].id != Some(id);
    }

    /** Check, claim, revoke, move, in that order. */
    method SetPrimaryEmail(id: string, newEmail: string) returns (r: Result<Account, ChangeError>)
      requires WellFormed(Tables())
      modifies emails, users
      ensures (r, Tables()) == Identity.SetPrimaryEmail(old(Tables()), id, newEmail)
    {
      ghost var before := Tables();
      var email := Trim(newEmail);
      if !ValidEmail(email) { return Err(InvalidAddress); }
      ToLowerTwice(email);
      var found := users.GetById(id);
      if found.None? || id == "" { return Err(UserNotFound); }
      var anchor := found.value;
      var current := Shown(anchor, users.users[anchor]);
      if ToLower(current) == ToLower(email) { return Ok(Account(id, current, anchor)); }
      var taken := IsClaimedByOther(email, id);
      if taken { return Err(InUse); }
      var claimed := emails.Register(email, id, true);
      if !claimed { return Err(InUse); }
      emails.RevokeAllVerified(id, email);
      ghost var revoked := Tables();
      assert revoked == Identity.RevokeAllVerified(Claim(before, ToLower(email), id, true).0, id, ToLower(email));
      ValidEmailIsClean(email);
      var stored := users.SetCurrentEmail(id, email);
      if !stored { return Err(IndexViolation); }
      return Ok(Account(id, email, anchor));
    }

    /** Attach a proven address without making it the sign-in address. */
    method LinkVerifiedEmail(id: string, email: string) returns (linked: bool)
      modifies emails
      ensures var address := Trim(email);
              if !ValidEmail(address) then !linked && Tables() == old(Tables())
              else Claim(old(Tables()), ToLower(address), id, true) == (Tables(), linked)
    {
      var address := Trim(email);
      if !ValidEmail(address) { return false; }
      linked := emails.Register(address, id, true);
    }

    /** `UserIdentityService.load`, for a trimmed address that is not empty. */
    method Load(email: string) returns (account: Option<Account>)
      requires WellFormed(Tables()) && Trim(email) == email && email != ""
      ensures account == Resolve(Tables(), email)
    {
      var key := ToLower(email);
      if key in emails.registry {
        if !emails.registry[key].verified { return None; }
        account := HydrateAccount(emails.registry[key].userId);
        return account;
      }
      var byCurrent := users.GetByCurrentEmail(email);
      if byCurrent.Some? {
        var row := users.users[byCurrent.value];
        if Truthy(row.id) { return Some(Account(row.id.value, Shown(byCurrent.value, row), byCurrent.value)); }
      }
      return FindByAnchor(Db(users.users, emails.registry), email);
    }

    method HydrateAccount(id: string) returns (account: Option<Account>)
      requires WellFormed(Tables())
      ensures account == Hydrate(Tables(), id)
      ensures account.None? <==> id == "" || forall a :: a in users.users ==> users.users[a].id != Some(id)
      ensures account.Some? ==>
                && account.value.id == id
                && account.value.anchor in users.users && users.users[account.value.anchor].id == Some(id)
                && var row := users.users[account.value.anchor];
                   account.value.email == Trim(if row.current.Some? then row.current.value else account.value.anchor)
    {
      var found := users.GetById(id);
      if found.None? || id == "" { return None; }
      return Some(Account(id, Shown(found.value, users.users[found.value]), found.value));
    }

    /** `resolveOwner`: an unknown caller is an owner without an id, never an error. */
    method ResolveOwner(presented: string) returns (owner: Owner)
      requires WellFormed(Tables())
      ensures owner == OwnerOf(Tables(), presented)
    {
      var address := Trim(presented);
      var account: Option<Account> := None;
      TrimTwice(presented);
      if address != "" { account := Load(address); }
      match account
      case None => return Owner(None, presented);
      case Some(a) => return Owner(if a.id == "" then None else Some(a.id), a.anchor);
    }
  }
}
