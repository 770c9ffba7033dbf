# Verified model of the access bridge

A Dafny 4.11 model of the parts of the access bridge where a mistake is hardest to see: credential trust
chains and their cache, account addresses, the scheduled work around them, signed internal requests, and four
algorithms. Each module models one component; loops and stateful objects keep the form they have in the
program and are tied to a specification function, and the theorems are about those functions. What the functions
mean is stated in turn on the stored columns, fields and characters themselves: as a round trip, as an if-and-only-if,
or as what the result is put together from. Verify with `dafny verify dfyconfig.toml`.

## What is modelled

**Credential chains** (`CredentialModel`, `ChainWalks`, `RoleSessions`, `CredentialCache`,
`CredentialServices`, `CredentialRefresh`, `InteractiveAssume`, `ChainCacheMachine`, `ChainCacheRoutes`,
`ChainCacheWitness`). A table of principals, each holding keys or naming the principal it assumes from, in any
shape, cycles included. The uncached walk follows it to a base under a hop limit; the cached walk may stop at a
live entry. STS is a function of role and calling credentials. `ChainCacheMachine` runs refreshes and interactive
requests, the latter lookup by lookup: first the cached walk, then a second search of the cache for the entry closest
to the target, each lookup with its own clock. They interleave with each other, with crashes, expiries and
invalidations, and with writes to the table.

A comment in the chain service asks the two walks to agree. They do exactly for hop limits up to three. Above
that the cached walk serves longer chains: up to max(L, 2L - 3) principals when only the scheduled refresh fills
the cache, a bound that is reached, and without any bound once interactive requests cache the hops of chains
that were themselves served from the cache.

What is served ends in the right credentials all the same. The search drops the session token of the chain it was
served, which is harmless when it finds a live entry, or when the chain reaches a base whose keys have none, and in no
other case: in particular not when the hop that cut the chain expires between the walk and the search. But an STS that
refuses session credentials without their token, as AWS STS does, refuses such a request, and nothing of it is cached.
So over such an STS cached and cold resolution end alike at every limit and after every run that leaves the table
alone, and an interactive request either ends in the cold leaf or is refused. A witness shows a request that is refused
although its cold chain goes through, and another that a limit of four or more does need that of STS.

A write to the table drops only the written principal's own entry; which other entries' paths it breaks is stated
exactly, and a witness shows one being served after its base is gone. All witnesses are tables that the services' own
writes build.

**Addresses** (`Identity`, `AddressServices`, `AddressMachine`). Accounts keyed by a frozen anchor, a registry of
verified and revoked addresses, and a resolver with three paths. Changes are modelled first as the service's whole
sequence, then statement by statement in any interleaving with other accounts' changes, links and provisioning.
One change is in flight per account; a witness shows why. An account that provisioning creates has a current address
but no registry row, and linking never looks at current addresses: such an account keeps resolving exactly until
somebody else's claim of its address succeeds, and then, without a verified row of its own, it has no address left.
`ChangeAndTheAccountWithoutCurrentAddress` gives the exact condition under which an account that migration 0032 left
without a current address is affected by somebody else's change: a change to a case variant of its anchor takes that
address over.

**Scheduled work** (`RunGuard`, `WorkQueue`, `ResourceInventory`). The guard of the cron worker over all traces
with a monotone clock, bounded waiting in the oldest-first queues, and the inventory sweep that prunes only what
was read in full. Inventory rows are keyed by account, type and id, without the region, as
`migrations/0030_squash.sql` declares the table.

**Signed requests** (`SignedPayload`, `Replay`). The payload is injective on components that HTTP can carry
(field values as in section 5.5 of RFC 9110) and HMAC (section 2 of RFC 2104) is idealised as injective, so a signature
covers exactly the timestamp, body hash, path, method and internal headers; and a request that arrives as it was sent
is accepted exactly while the two clocks differ by no more than the window. A signature string is single-use while
twice the window plus the time between window check and claim stays within the record's time to live, a margin that is
exact for the string. The signed request is not: the guard remembers strings and verification compares decoded bytes,
so within that margin a request can be accepted twice exactly when its signature has another spelling, and under a
decoder that drops white space every signature has one.

**Algorithms** (`AccountPaging`, `LikePattern`, `CostExplorer`, `MigrationLock`). Account-level paging of
the grant table, LIKE escaping (section 8.5 of ISO/IEC 9075-2, and SQLite's case rule), accumulation of Cost
Explorer pages, and the migration lock with its `--write`. `Prelude`, `Text`, `Sorting` and `Sequences` hold what
they share.

## Model

| member | source | states |
|---|---|---|
| CredentialModel.TrueRouteNeverRepeats | packages/backend-data/src/dao/CredentialsDAO.ts:67-98 | a trust path that ends at a base never visits a principal twice, so a cyclic relationship graph has no usable chain |
| CredentialModel.TrueRouteUnique | packages/backend-data/src/dao/CredentialsDAO.ts:73-98 | a target has at most one whole trust path, whatever the hop limit |
| CredentialModel.TrueChainIsSpelled | packages/backend-data/src/dao/CredentialsDAO.ts:67-115 | the true chain column by column: readable rows that each name the next, down to one that names nobody and holds exactly the chain's keys, session token included |
| CredentialModel.RouteSurvivesWrite | packages/backend-data/src/dao/CredentialsDAO.ts:152-159 | rewriting one row leaves a trust path whole if and only if the row is off the path, or stays readable and still points where it pointed |
| CredentialModel.RouteSurvivesRemoval | packages/backend-data/src/dao/CredentialsDAO.ts:161-163 | removing one row leaves a trust path whole if and only if the row is off the path |
| ChainWalks.ColdWalkDecides | packages/backend-data/src/dao/CredentialsDAO.ts:67-115 | the uncached walk answers `r`, accepted chain or refusal, exactly when some path of at most `limit` principals from the target ends in `r` |
| ChainWalks.ColdWalkAccepts | packages/backend-data/src/dao/CredentialsDAO.ts:100-114 | a chain is accepted exactly when it is the target's whole path to a keyed base, has at least two principals and fits the limit |
| ChainWalks.ColdWalkReadsRows | packages/backend-data/src/dao/CredentialsDAO.ts:67-115 | the uncached walk answers with a chain if and only if the columns spell it from the target down and it fits the limit |
| ChainWalks.ColdWalkTooDeep | packages/backend-data/src/dao/CredentialsDAO.ts:84-91 | the depth refusal happens exactly when `limit` relationships can be followed from the target |
| ChainWalks.CachedWalkDecides | packages/backend-services/src/credential/CredentialChainService.ts:76-130 | the cached walk answers `r` exactly when some path from the target stops with `r`: at the first live inner hop below the limit, or where the store ends it |
| ChainWalks.StopUnique | packages/backend-services/src/credential/CredentialChainService.ts:76-130 | a walk has only one place to stop, and one answer there |
| ChainWalks.NoLiveEntriesNoDifference | packages/backend-services/src/credential/CredentialChainService.ts:104-118 | with nothing live in the cache the two walks give the same chain or the same error |
| ChainWalks.WarmCacheOnlyShortens | packages/backend-services/src/credential/CredentialChainService.ts:92-102 | for every store, cache and limit: what the cold walk accepts the cached walk accepts, whole, or cut at the first live index k >= 1 with k + 1 below the limit, with at least two principals |
| ChainWalks.CachedWalkServes | packages/backend-services/src/credential/CredentialChainService.ts:119-128 | a served chain is a path from the target of 2 to `limit` principals: a whole accepted chain, or one strictly shorter than the limit ending in a live entry's keys |
| RoleSessions.FoldSplits | packages/backend-services/src/credential/CredentialChainWalker.ts:16-28 | walking a chain can be resumed from any principal whose credentials are known, with the same outcome |
| RoleSessions.FoldIsATrail | packages/backend-services/src/credential/CredentialChainWalker.ts:16-53 | a walk yields the head of a trail in which each hop is granted to the session granted below it, or the refusal that ends one, if and only if there is such a trail |
| RoleSessions.FoldFailsUpwards | packages/backend-services/src/credential/CredentialChainWalker.ts:45-48 | a refusal at one hop is the outcome of every longer walk |
| CredentialCache.WarmedHoldsFolds | apps/background/src/scheduled/CredentialCacheRefreshTask.ts:108-126 | after a refresh, whole or broken off, each entry is the old one or the session STS granted for that inner hop, with the expiration STS gave it, which is what walking the chain up to it yields; never the target, never the base |
| CredentialCache.WarmedExactly | apps/background/src/scheduled/CredentialCacheRefreshTask.ts:108-126 | over a true chain exactly the inner hops whose session has a token and an expiration get an entry, with that expiration; every other entry is as it was |
| CredentialCache.WarmedCountCounts | apps/background/src/scheduled/CredentialCacheRefreshTask.ts:108-126 | the refreshed count is the number of those hops |
| CredentialCache.LiveMeans | packages/backend-data/src/dao/CredentialsCacheDAO.ts:35-65 | an entry answers exactly while it has not expired and its fields can be read, and answers with its own fields |
| CredentialCache.StoredIsServedUntilExpiry | packages/backend-data/src/dao/CredentialsCacheDAO.ts:67-93 | round trip: a stored session is served as stored until the instant it expires and not from then on, and no other answer changes |
| CredentialCache.ServedFromRowsOrLiveEntry | packages/backend-services/src/credential/CredentialChainService.ts:76-130 | what the cached walk serves is spelled by the rows down to a base, or is cut below the limit at an entry that had not expired when it was looked up, and carries that entry's fields |
| CredentialServices.StoringKeysKeepsRoutes | packages/backend-data/src/dao/CredentialsDAO.ts:117-150 | storing keys moves no trust path |
| CredentialServices.WritesAreIndependent | packages/backend-data/src/dao/CredentialsDAO.ts:117-159 | storing keys and writing a relationship commute: each keeps what the other wrote, and neither touches another row |
| CredentialServices.StoredKeysComeBack | packages/backend-data/src/dao/CredentialsDAO.ts:100-150 | round trip: the accepted chain above a base carries the keys last stored for it, an empty token read back as none, whatever the row held before |
| CredentialServices.PrincipalArnIsComposed | packages/shared/src/schema/common.ts:4 | a principal is twelve digits, role or user, and a name, if and only if it is put together from them |
| CredentialServices.RewiringGraftsTheNewRoute | packages/backend-data/src/dao/CredentialsDAO.ts:152-159 | after a relationship write the principal's path is itself followed by its new parent's path, exactly when the write names a parent, closes no cycle and the row is readable |
| CredentialServices.CredentialsDAO.GetCredentialByPrincipalArn | packages/backend-data/src/dao/CredentialsDAO.ts:28-65 | missing, unreadable and readable rows |
| CredentialServices.CredentialsDAO.GetCredentialChainByPrincipalArn | packages/backend-data/src/dao/CredentialsDAO.ts:67-115 | the loop computes the cold walk and terminates on every graph |
| CredentialServices.CredentialsCacheDAO.GetCachedCredential | packages/backend-data/src/dao/CredentialsCacheDAO.ts:35-65 | answers what is live, evicts exactly the queried dead or unreadable entry, changes no answer |
| CredentialServices.CredentialsCacheDAO.StoreCachedCredential | packages/backend-data/src/dao/CredentialsCacheDAO.ts:67-93 | stores the session, or nothing when there is no token |
| CredentialServices.CredentialChainService.GetCredentialChainToFirstCachedPrincipal | packages/backend-services/src/credential/CredentialChainService.ts:68-131 | the loop, reading the clock at every lookup, computes the cached walk, terminates, and only evicts |
| CredentialCache.AdvancingWalkIsOneWalk | packages/backend-services/src/credential/CredentialChainService.ts:92-102 | while the clock advances during a walk, the walk answers what it would answer at one instant, that of its last lookup |
| CredentialServices.CredentialChainService.ResolveLeafCredentials | packages/backend-services/src/credential/CredentialChainService.ts:138-144 | the fold of STS over the cold walk's chain, or the refusal of either |
| CredentialServices.WalkToLeaf | packages/backend-services/src/credential/CredentialChainWalker.ts:16-53 | the base-to-target loop is the fold over the chain |
| CredentialServices.TestChain | packages/backend-services/src/credential/CredentialChainWalker.ts:60-90 | success means the whole walk goes through; the steps are the report |
| CredentialServices.ReportListsPrincipals | packages/backend-services/src/credential/CredentialChainWalker.ts:64-79 | the report lists the principals from the base upwards, all assumed but perhaps the last |
| CredentialServices.ReportNamesTheRefusedHop | packages/backend-services/src/credential/CredentialChainWalker.ts:80-84 | a failed test ends at the lowest refused hop and carries its message |
| CredentialServices.ReportStaysAfterRefusal | packages/backend-services/src/credential/CredentialChainWalker.ts:72-75 | after a refusal nothing more is tried or listed |
| CredentialServices.RefreshPrincipal | apps/background/src/scheduled/CredentialCacheRefreshTask.ts:76-128 | result and cache of refreshing one principal, skip, refusal and partial failure included |
| CredentialServices.RefreshReports | apps/background/src/scheduled/CredentialCacheRefreshTask.ts:76-128 | what is reported: skipped exactly for a base with keys, failed for any other refusal and for an inner hop cut off or refused, else the number of hops cached |
| CredentialServices.ReachedIsFirstObstacle | apps/background/src/scheduled/CredentialCacheRefreshTask.ts:108-126 | a refresh stops at the first refused or unreachable hop and nowhere else |
| CredentialServices.CredentialStoreService.StoreCredential | packages/backend-services/src/credential/CredentialStoreService.ts:74-84 | what is accepted, and the table after it |
| CredentialServices.CredentialStoreService.StoreCredentialRelationship | packages/backend-services/src/credential/CredentialStoreService.ts:86-108 | table, registration and the one dropped cache entry after an accepted write; nothing after a malformed one |
| CredentialServices.CredentialStoreService.RemoveCredential | packages/backend-services/src/credential/CredentialStoreService.ts:110-127 | row, registration and own cache entry are gone |
| CredentialRefresh.HandleScheduledTask | apps/background/src/scheduled/CredentialCacheRefreshTask.ts:19-74 | takes a due batch, oldest first; the cache and the three counters are those of the batch; every stamp that can be written is, whatever happened before it, so a run is one tick of the queue |
| CredentialRefresh.CountersCount | apps/background/src/scheduled/CredentialCacheRefreshTask.ts:42-74 | failed and skipped count the principals that report so or could not be stamped, each once, and refreshed adds up, whatever else happens in the batch |
| CredentialRefresh.BatchWritesRefreshedEntries | apps/background/src/scheduled/CredentialCacheRefreshTask.ts:42-69 | whatever fails in a batch, it adds only entries a refresh may write: inner hops of chains the cold walk accepts, holding the sessions granted there |
| InteractiveAssume.FindClosestCachedCredential | packages/backend-services/src/aws/assume-role/AssumeRoleService.ts:68-91 | with the clock read at every lookup: the live entry closest to the target, else the chain's keys without their session token |
| InteractiveAssume.SearchStartsAtLiveEntry | packages/backend-services/src/aws/assume-role/AssumeRoleService.ts:68-91 | the search starts from the first entry from the target on that had not expired when looked up, with its fields, and otherwise from the key pair alone |
| InteractiveAssume.AdvancingStartIsOneStart | packages/backend-services/src/aws/assume-role/AssumeRoleService.ts:68-91 | while the clock advances during a search, the search starts where it would start at one instant |
| InteractiveAssume.AssumeRoleChain | packages/backend-services/src/aws/assume-role/AssumeRoleService.ts:98-130 | the fold from the starting credentials; inner hops that went through are cached, the target never, and a refusal keeps what came before it |
| ChainCacheMachine.RunKeepsCoherent | packages/backend-services/src/credential/CredentialChainService.ts:81-91 | in every state of every run, with every cache lookup of an interactive request a step of its own, and with refreshes, crashes, expiries and table writes in between, each entry is the fold along the chain it was made from |
| ChainCacheMachine.ServedChainMeansTrueChain | packages/backend-services/src/credential/CredentialChainService.ts:81-102 | a served chain whose cached hop still has the path it was warmed along begins the target's true chain, resolves to the same credentials, and is accepted cold exactly when that chain fits the limit |
| ChainCacheRoutes.RunKeepsRoutes | apps/background/src/scheduled/CredentialCacheRefreshTask.ts:108-126 | runs that leave the table alone keep every recorded path a true route, in finished entries, walks, searches and flights alike |
| ChainCacheRoutes.RunKeepsShort | apps/background/src/scheduled/CredentialCacheRefreshTask.ts:108-126 | refreshes alone, and up to a limit of three interactive assumptions too, keep at most limit - 1 principals from any cached one down to its base |
| ChainCacheRoutes.RunKeepsTrue | packages/backend-services/src/aws/assume-role/AssumeRoleService.ts:109-128 | until a search drops a token that STS does not miss, every entry and walk belongs to its principal's true chain, and every flight does too or gets nothing from STS |
| ChainCacheRoutes.ServedRouteBound | packages/backend-services/src/credential/CredentialChainService.ts:68-131 | after any such run of refreshes, expiries and invalidations, what is served begins a true path of at most max(L, 2L - 3) principals |
| ChainCacheRoutes.WalksAgreeUpToThree | packages/backend-services/src/credential/CredentialChainService.ts:104-108 | for limits up to three the cached walk accepts exactly what the cold walk accepts, interactive caching included |
| ChainCacheWitness.WalksAgreeExactlyUpToThree | packages/backend-services/src/credential/CredentialChainService.ts:104-108 | the walks accept the same principals over every table the services would store and every run if and only if the limit is at most three |
| ChainCacheWitness.RefreshBoundIsReached | packages/backend-services/src/credential/CredentialChainService.ts:81-102 | for every limit of four or more, a run of refreshes after which a target of exactly 2L - 3 principals is served and refused cold |
| ChainCacheWitness.InteractiveCachingHasNoBound | packages/backend-services/src/aws/assume-role/AssumeRoleService.ts:109-128 | from a limit of four on, interactive caching lets a target whose true chain has any given length be served |
| ChainCacheRoutes.CachedLeafIsColdLeaf | packages/backend-services/src/credential/CredentialChainService.ts:138-144 | at every limit, after any run of refreshes, interactive requests, expiries and invalidations, walking what the cache serves gives the credentials, or the refusal, of walking the whole true chain, given an STS that refuses session credentials without their token |
| ChainCacheRoutes.RefusingStsKeepsTokens | packages/backend-services/src/aws/assume-role/AssumeRoleService.ts:72-76 | such an STS answers nothing that a search has stripped of its token, over any table and at any limit |
| ChainCacheRoutes.KeptTokensKeepLeaves | packages/backend-services/src/credential/CredentialChainService.ts:138-144 | with any STS, cached and cold resolution end alike after any run in which STS misses every token that is dropped |
| ChainCacheRoutes.RefreshKeepsTokens | apps/background/src/scheduled/CredentialCacheRefreshTask.ts:108-126 | runs of scheduled refreshes drop no token, whatever STS answers |
| ChainCacheRoutes.LongTermBasesKeepTokens | packages/backend-services/src/aws/assume-role/AssumeRoleService.ts:72-76 | nor do, over long-term bases, any runs with a limit of up to three |
| ChainCacheWitness.LeavesAgreeExactlyUpToThree | packages/backend-services/src/aws/assume-role/AssumeRoleService.ts:68-91 | when nothing is asked of STS: over long-term bases, cached resolution ends in the cold leaf whatever STS answers and after every run if and only if the limit is at most three |
| ChainCacheWitness.DroppedTokenSpoilsTheCache | packages/backend-services/src/aws/assume-role/AssumeRoleService.ts:72-76 | the hypothesis on STS is needed beyond a limit of three: where STS answers session credentials without their token, a hop that dies between walk and search can leave an entry from which other credentials than the cold leaf's are served |
| ChainCacheWitness.StrictRefusesBare | packages/backend-services/src/aws/assume-role/AssumeRoleService.ts:113-118 | the STS of the other witnesses misses the token, so the agreement of leaves covers it |
| ChainCacheRoutes.InteractiveStartsRight | packages/backend-services/src/aws/assume-role/AssumeRoleService.ts:57-60 | the flight that the last lookup of a search starts holds its true chain's credentials, and so ends in the cold leaf, if and only if the search found a live entry or its chain reaches a base whose keys carry no token; otherwise it is refused, given an STS that refuses session credentials without their token |
| ChainCacheWitness.EmptySearchNeedsTokenlessKeys | packages/backend-services/src/aws/assume-role/AssumeRoleService.ts:72-76 | a search that finds nothing ends where the served chain does, whatever STS answers, exactly when the chain's keys carry no token |
| ChainCacheWitness.DeadHopIsRefused | packages/backend-services/src/aws/assume-role/AssumeRoleService.ts:49-58 | a run, for every limit of three or more, whose request was served from a hop that dies before the search and is refused, while its cold chain over a long-term base goes through |
| ChainCacheRoutes.WriteReachesOnlyRoutesThroughIt | packages/backend-services/src/credential/CredentialStoreService.ts:97-102 | after a write and its own invalidation another entry's path is intact exactly when the written row is off it or still points the same way |
| ChainCacheRoutes.RemovalReachesOnlyRoutesThroughIt | packages/backend-services/src/credential/CredentialStoreService.ts:117-121 | after a removal and its own invalidation another entry's path is intact exactly when the removed row is off it |
| ChainCacheWitness.RemovedBaseIsStillServed | packages/backend-services/src/credential/CredentialStoreService.ts:117-121 | a role warmed above a base is served after the base row is gone, for every limit of three or more |
| ChainCacheMachine.RefreshIsAFlight | apps/background/src/scheduled/CredentialCacheRefreshTask.ts:108-126 | the scheduled refresh is a run of the machine: its hops write exactly what the refresh writes |
| ChainCacheMachine.AskStartsFlight | packages/backend-services/src/aws/assume-role/AssumeRoleService.ts:49-58 | an interactive request is a run of the machine: walk and search, each at its own instant, start the flight the served chain and the entries found call for |
| InteractiveAssume.InteractiveIsAFlight | packages/backend-services/src/aws/assume-role/AssumeRoleService.ts:98-130 | its hops write exactly what `AssumeRoleChain` writes from the closest entry |
| ChainCacheWitness.RungIsPrincipal | packages/shared/src/schema/common.ts:4 | the principals of the witness tables are ones the services accept |
| Identity.OpensAccount | packages/backend-services/src/identity/UserIdentityService.ts:135-220 | which addresses resolve to an account, both ways: its verified rows; its current address while unregistered; its anchor while it never moved and nobody else has the address |
| Identity.ResolvedShowsItsRow | packages/backend-services/src/identity/UserIdentityService.ts:135-236 | whichever path finds it, a resolved account has its row's id and anchor and shows the row's current address, or the anchor while there is none |
| Identity.RowWithoutIdResolves | packages/backend-services/src/identity/UserIdentityService.ts:195-219 | a row without an id resolves exactly from its anchor, while neither store knows that address |
| Identity.ValidEmailIsComposed | packages/backend-services/src/identity/AddressRegistryService.ts:6 | an address is usable if and only if it is put together from a local part, one `@`, a domain and what follows its dot, without white space |
| Identity.ChangeIsAllOrNothing | packages/backend-services/src/identity/AddressRegistryService.ts:57-86 | undisturbed, a change moves the account exactly when the address is usable, new and free, and otherwise leaves both tables as they were; the unique index is never hit |
| Identity.ChangeAnswers | packages/backend-services/src/identity/AddressRegistryService.ts:57-86 | which answer a change gives, and exactly when: invalid address, unknown user, in use, the present address, or the new one |
| Identity.ChangeEffect | packages/backend-services/src/identity/AddressRegistryService.ts:76-85 | the whole state after a completed change, row by row |
| Identity.ChangedAccountOpensByNewAddressOnly | packages/backend-services/src/identity/AddressRegistryService.ts:36-39 | after a change exactly the new address resolves to the account |
| Identity.ChangedAccountShowsNewAddress | packages/backend-services/src/identity/UserIdentityService.ts:222-236 | and resolving it shows the account under the new address, over the same anchor |
| Identity.ChangeLeavesOthersAlone | packages/backend-services/src/identity/AddressRegistryService.ts:36-39 | every other account with a current address keeps exactly its resolvable addresses |
| Identity.ChangeAndTheAccountWithoutCurrentAddress | packages/backend-services/src/identity/UserIdentityService.ts:190-220 | an account left without a current address keeps them if and only if its anchor is registered, or the change neither takes nor gives up that address |
| Identity.ChangeKeepsOwnedRows | packages/backend-services/src/identity/resolveOwner.ts:34-37 | the new address owns what any earlier address of the account owned, so every owner-keyed read returns the same rows |
| Identity.OwnerReads | packages/backend-services/src/identity/resolveOwner.ts:5-15 | an account reads the rows under its id and the rows without an id under its anchor; a caller without an account, the rows without an id under the address presented |
| Identity.NoRowHasTwoReaders | packages/backend-services/src/identity/resolveOwner.ts:5-15 | no row is read by two accounts |
| Text.SameUpToCase | packages/backend-data/src/dao/UserEmailDAO.ts:34 | two addresses are the same once lower-cased exactly when they differ at most in the case of ASCII letters |
| Text.TrimDropsOuterSpace | packages/backend-services/src/identity/AddressRegistryService.ts:58 | trimming drops the white space around an address, all of it and nothing else |
| Text.SpaceCodePoints | packages/backend-services/src/identity/AddressRegistryService.ts:58 | white space by code point, as `trim` and the address pattern know it |
| AddressServices.UserEmailDAO.Register | packages/backend-data/src/dao/UserEmailDAO.ts:28-49 | read then conditional upsert: a verified row is left alone and answered as already claimed |
| AddressServices.UserEmailDAO.ConditionalUpsert | packages/backend-data/src/dao/UserEmailDAO.ts:42-48 | the write decides by itself, so a lost race is noticed |
| AddressServices.UserMetadataDAO.SetCurrentEmail | packages/backend-data/src/dao/UserMetadataDAO.ts:87-89 | moves one row, unless the unique index refuses |
| AddressServices.UserMetadataDAO.EnsureUserEmailExists | packages/backend-data/src/dao/UserMetadataDAO.ts:36-50 | adds an account with its identity columns, unless anchor, id or current address is taken |
| AddressServices.AddressRegistryService.IsClaimedByOther | packages/backend-services/src/identity/AddressRegistryService.ts:121-138 | true exactly when another account holds the address verified or as its current one |
| AddressServices.AddressRegistryService.SetPrimaryEmail | packages/backend-services/src/identity/AddressRegistryService.ts:57-86 | check, claim, revoke, move: the answer and both tables |
| AddressServices.AddressRegistryService.LinkVerifiedEmail | packages/backend-services/src/identity/AddressRegistryService.ts:92-107 | a usable address is claimed, and nothing else changes |
| AddressServices.AddressRegistryService.Load | packages/backend-services/src/identity/UserIdentityService.ts:135-188 | the registry, current-address and anchor paths in the order the code tries them |
| AddressServices.AddressRegistryService.HydrateAccount | packages/backend-services/src/identity/UserIdentityService.ts:222-236 | the account behind an id |
| AddressServices.AddressRegistryService.ResolveOwner | packages/backend-services/src/identity/resolveOwner.ts:34-37 | an unknown caller is an owner without an id |
| AddressMachine.RunKeepsSafe | packages/backend-services/src/identity/AddressRegistryService.ts:41-43 | every interleaving of changes, links, provisioning and abandoned changes keeps an account's verified row in place |
| AddressMachine.NeverLockedOut | packages/backend-services/src/identity/AddressRegistryService.ts:41-43 | an account whose current address is its verified row, or unregistered and not claimed by another account during the run, resolves from some address in every state of every interleaving |
| AddressMachine.KeepsResolving | packages/backend-services/src/identity/UserIdentityService.ts:160-188 | an account keeps resolving by its current address in every state exactly as long as no other account's claim of it succeeds and its own change does not leave it behind |
| AddressMachine.TakenLocksOut | packages/backend-services/src/identity/AddressRegistryService.ts:92-107 | an account without a verified row has no address left once another account's claim of its unregistered current address succeeds |
| AddressMachine.NewAccountCanBeLockedOut | packages/backend-data/src/dao/UserMetadataDAO.ts:36-50 | it happens to an account as provisioning leaves it: another account's link of its address succeeds and locks it out |
| AddressMachine.AloneItIsSetPrimaryEmail | packages/backend-services/src/identity/AddressRegistryService.ts:57-86 | run alone, the interleaved steps are the service's own sequence |
| AddressMachine.AloneItIsALink | packages/backend-services/src/identity/AddressRegistryService.ts:92-107 | run alone, the read and the write of a link are one claim of a usable address, and nothing for any other |
| AddressMachine.TwoChangesAtOnceLockOut | packages/backend-services/src/identity/AddressRegistryService.ts:76-83 | two changes of one account at once can revoke each other's claims and leave it with no address |
| AddressMachine.HolderIsFixedWhileVerified | packages/backend-data/src/dao/UserEmailDAO.ts:37-48 | in any run of claims and revokes, a row that stays verified never changes holder |
| AddressMachine.OneWinnerUntilRevoked | packages/backend-data/src/dao/UserEmailDAO.ts:37-48 | of all verified claims of one address at most one is answered as claimed until a revoke reaches the row |
| RunGuard.TraceKeepsInv | apps/background/src/CronTasksWorker.ts:43-68 | at the last clock reading of any trace only the newest run can hold the guard, and a run unsettled without it had reached the maximum age |
| RunGuard.UnsettledRunsAreSpreadOut | apps/background/src/CronTasksWorker.ts:8-20 | k runs unsettled at once have start times spanning at least (k - 1) times the maximum age |
| RunGuard.TickBeginsRun | apps/background/src/CronTasksWorker.ts:43-56 | a tick begins a run exactly when there was none, the newest has settled, or the newest has the maximum age |
| RunGuard.GuardOutlivesLateSettles | apps/background/src/CronTasksWorker.ts:64-68 | a late-settling expired run never clears its successor's guard, and nothing else starts within the age |
| RunGuard.CronTasksWorker.OnRequest | apps/background/src/CronTasksWorker.ts:35-56 | each answer and the guard it leaves |
| RunGuard.CronTasksWorker.OnSettled | apps/background/src/CronTasksWorker.ts:64-68 | clears the guard only if it is the run's own |
| WorkQueue.SelectDue | packages/backend-data/src/dao/CredentialCacheConfigDAO.ts:34-41 | an oldest-first batch of due rows, as large as the limit allows, ties either way |
| WorkQueue.PassedOverMovesUp | packages/backend-data/src/dao/DataCollectionConfigDAO.ts:44-54 | a due row passed over sees exactly one batch of rows move from ahead of it to behind it |
| WorkQueue.AttemptedWithinBound | packages/backend-data/src/dao/DataCollectionConfigDAO.ts:29-54 | a due row with k others attempted no later is attempted within k / size further ticks, whatever the attempts return |
| WorkQueue.HandleBatch | apps/background/src/scheduled/AbstractCollectionTask.ts:82-142 | clocks, item and failure counts and the daily-limit pause of the batch loop, stamp failures included |
| WorkQueue.BatchIsOneTick | apps/background/src/scheduled/AbstractCollectionTask.ts:90-108 | every principal of an undisturbed batch gets its attempt stamp; the success clock moves exactly where data arrived |
| WorkQueue.BatchTurnsRows | apps/background/src/scheduled/AbstractCollectionTask.ts:82-142 | any batch, paused or not: each principal it gets to has the stamps its own outcome calls for, and no other row changes |
| WorkQueue.BatchCounts | apps/background/src/scheduled/AbstractCollectionTask.ts:82-142 | items are all that were returned, the last before a pause included; failures are the principals that threw or could not be stamped, each once |
| WorkQueue.BatchStampsTheQueue | apps/background/src/scheduled/AbstractCollectionTask.ts:84-135 | an undisturbed batch is one tick of the queue |
| WorkQueue.HandleScheduledTask | apps/background/src/scheduled/AbstractCollectionTask.ts:54-142 | due batch by attempt clock, refused as a whole when the invocation cannot afford it, then the loop: undisturbed, a valid tick |
| ResourceInventory.GatherSweeps | apps/background/src/scheduled/ResourceInventoryCollectionTask.ts:64-87 | everything returned, and exactly the types read in every expected region |
| ResourceInventory.ReadInFullMeans | apps/background/src/scheduled/ResourceInventoryCollectionTask.ts:71-82 | a type is read in full exactly when one of its collectors was answered by every region it was asked for and failed in none |
| ResourceInventory.EveryItemIsKept | apps/background/src/scheduled/ResourceInventoryCollectionTask.ts:68-76 | every item that came back is kept, in order, whether or not its type was read in full |
| ResourceInventory.CollectForAccount | apps/background/src/scheduled/ResourceInventoryCollectionTask.ts:64-114 | the table after gathering, upserting and pruning, or after as many of those statements as the database let through |
| ResourceInventory.SweepKeeps | apps/background/src/scheduled/ResourceInventoryCollectionTask.ts:89-106 | a key is there afterwards exactly when it was returned, or was there and is another account's, of a type not read in full, or not older; and with which row |
| ResourceInventory.FullTypeHoldsExactlyWhatWasReturned | apps/background/src/scheduled/ResourceInventoryCollectionTask.ts:103-106 | a fully read type holds exactly the returned keys, if and only if no unreturned row of it is stamped at or after the run |
| ResourceInventory.PartialTypesLoseNothing | apps/background/src/scheduled/ResourceInventoryCollectionTask.ts:54-63 | a type not read in full loses no key, and other accounts' rows are untouched |
| ResourceInventory.FailedRegionsLoseNothing | apps/background/src/scheduled/ResourceInventoryCollectionTask.ts:54-63 | while no collector of a type was answered everywhere, every stored row of it stays, and what did not come back stays as it was |
| ResourceInventory.SecondSweepKeepsKeys | apps/background/src/scheduled/ResourceInventoryCollectionTask.ts:89-106 | the same answers again change stamps only |
| ResourceInventory.BrokenSweepRecovers | apps/background/src/scheduled/ResourceInventoryCollectionTask.ts:89-106 | a sweep the database breaks off loses no key the whole sweep keeps, and the next sweep with the same answers leaves the same keys |
| SignedPayload.PayloadIsInjective | packages/backend-data/src/crypto/hmac.ts:11-16 | equal payloads mean equal internal headers, timestamp, body hash, path and method |
| SignedPayload.PayloadIgnoresHeaderOrder | packages/backend-data/src/crypto/hmac.ts:11-15 | neither the order of headers nor headers outside the prefix matter |
| SignedPayload.OtherHeadersAreNotSigned | packages/backend-data/src/crypto/hmac.ts:11-12 | a header whose name does not begin with the prefix, in whatever case, is not signed, wherever it stands |
| SignedPayload.PayloadIsJoined | packages/backend-data/src/crypto/hmac.ts:11-16 | the payload is the sorted header lines, then timestamp, body hash, path and method, one per line |
| SignedPayload.TimingSafeEqual | packages/backend-data/src/crypto/hmac.ts:32-43 | the accumulating comparison is equality |
| Replay.ReplayGuard.Claim | packages/backend-services/src/auth/ReplayGuard.ts:57-77 | first sight is recorded for the time to live; an unbound store, a failing read and a failing write each let the request through |
| Replay.ValidateInternalRequest | apps/api/src/middleware/HMACHandler.ts:26-83 | verdict and seen-set with or without a guard, over a healthy store or not: shape, window and signature come before the claim |
| Replay.GuardOnlyRefusesReplays | apps/api/src/middleware/HMACHandler.ts:69-80 | a request is accepted exactly when it verifies in its window and the store, if it can be asked, does not remember the signature; only accepted requests reach the seen-set |
| Replay.RefusalsInOrder | apps/api/src/middleware/HMACHandler.ts:33-80 | which refusal a request meets, and exactly when: missing headers, outside the window, bad signature, replayed, in that order |
| Replay.SignatureCovers | apps/api/src/middleware/HMACHandler.ts:58-68 | a second request verifies under the same signature bytes if and only if it has the same timestamp, body hash, path and method and the same internal headers, user included |
| Replay.UncoveredFieldIsIgnored | apps/api/src/middleware/HMACHandler.ts:58-63 | the signature header itself and headers outside the prefix can be put anywhere without effect |
| Replay.SignedRequestIsAccepted | packages/backend-services/src/aws/InternalRequestHelper.ts:28-46 | round trip: a request signed by the sender that arrives as sent is accepted exactly while the clocks differ by no more than the window |
| Replay.StampShape | apps/api/src/middleware/HMACHandler.ts:41-45 | a millisecond clock has the thirteen digits asked for exactly from 10^12 on and below 10^13, and reads back as itself |
| Replay.SameSignatureSameTimestamp | apps/api/src/middleware/HMACHandler.ts:58-68 | two verified requests with one signature carry one timestamp |
| Replay.RecordLasts | packages/backend-services/src/auth/ReplayGuard.ts:63-70 | an accepted signature stays recorded for the whole time to live |
| Replay.SingleUse | packages/backend-services/src/auth/ReplayGuard.ts:27-37 | one signature string is accepted at most once over any run, if there is no delay between check and claim, or 2W plus the delay is at most the five minutes records are kept at least |
| Replay.RequestSingleUse | packages/backend-services/src/auth/ReplayGuard.ts:3-16 | no two requests with one signed payload are accepted, given the same and signatures that are told apart by what they decode to |
| Replay.AcceptedTwiceExactlyIfRespelled | packages/backend-data/src/crypto/hmac.ts:55-65 | within that margin a verified request can be accepted twice if and only if its signature has another spelling that decodes to the same bytes |
| Replay.OtherSpellingIsAcceptedAgain | packages/backend-data/src/crypto/hmac.ts:55-65 | the failing run: the same request with another spelling of its signature, with no delay at all |
| Replay.ForgivingDecodingRespells | packages/backend-data/src/crypto/hmac.ts:59-60 | a decoder that drops white space, as `atob` does, gives every signature another spelling |
| Replay.SlowClaimsAcceptTwice | packages/backend-services/src/composition/requestScope.ts:119 | with any longer delay a verified request is accepted at both ends of its window |
| AccountPaging.OrderIsTotal | packages/backend-data/src/dao/AssumableRolesQueries.ts:92-95 | the subquery's ordering is total, so pages are well defined |
| AccountPaging.VisibleMeans | packages/backend-data/src/dao/AssumableRolesQueries.ts:73-90 | a listing is made of the owner's grants, by id or, without one, by anchor, hidden ones only if asked for, each as often as stored |
| AccountPaging.ListingOrder | packages/backend-data/src/dao/AssumableRolesQueries.ts:92-95 | favourites first, then accounts with a nickname, by nickname, and by account id among equals and the rest |
| AccountPaging.ListingIsDetermined | packages/backend-data/src/dao/AssumableRolesQueries.ts:86-96 | whatever order the database groups in, the listing is the one sorted arrangement of the visible accounts |
| AccountPaging.ListedAccounts | packages/backend-data/src/dao/AssumableRolesDAO.ts:80-91 | the listing has each visible account once, and as many as the reported total |
| AccountPaging.PageIsItsRange | apps/web/src/lib/pagination.ts:33-41 | page p of `totalPages` holds the accounts from `from` to `to`, `to - from + 1` of them; later pages are empty |
| AccountPaging.EachAccountOnOnePage | apps/web/src/services/accountService.ts:28-33 | every listed account is on exactly one page of the client's page space |
| AccountPaging.PagesPartitionAccounts | packages/backend-data/src/dao/AssumableRolesQueries.ts:73-99 | each visible account has one home page that carries all its visible rows, and no other page carries any |
| AccountPaging.MapRows | packages/backend-data/src/dao/AssumableRolesMapper.ts:15-33 | the loop is the row-by-row map |
| AccountPaging.MappedEntry | packages/backend-data/src/dao/AssumableRolesMapper.ts:15-33 | one entry per account with a row, listing all its rows and no others |
| AccountPaging.RolesAreItsRows | packages/backend-data/src/dao/AssumableRolesMapper.ts:15-33 | an account's roles are those of its rows with the given mark, in order |
| AccountPaging.EntryLabels | packages/backend-data/src/dao/AssumableRolesMapper.ts:18-24 | nickname and favourite mark come from the account's first row, an empty nickname counting as none |
| AccountPaging.PageMapCarriesAllRoles | packages/backend-data/src/dao/AssumableRolesDAO.ts:100-125 | in whatever order rows come back, a listed account has all its visible roles, shown and hidden apart |
| AccountPaging.PageMapHasThePagesAccounts | packages/backend-data/src/dao/AssumableRolesDAO.ts:100-125 | the map has an entry for exactly the accounts of the page |
| AccountPaging.PageMapShowsGrants | packages/backend-data/src/dao/AssumableRolesDAO.ts:100-125 | a listed account shows each role as often as it is granted, shown or hidden as marked, its nickname, and whether it is a favourite |
| LikePattern.EscapedMatchesItself | packages/backend-data/src/utils/LIKEUtil.ts:14-16 | an escaped term consumes exactly its own text |
| LikePattern.ContainsMatchesSubstrings | packages/backend-data/src/utils/LIKEUtil.ts:21-23 | the pattern matches exactly the texts the term occurs in, for every term and any folding of characters |
| LikePattern.StandardLikeIsLiteral | packages/backend-data/src/utils/LIKEUtil.ts:14-23 | under the standard's LIKE it is a literal substring search |
| LikePattern.EscapingIsNeeded | packages/backend-data/src/utils/LIKEUtil.ts:14-23 | left unescaped, a term is searched for literally if and only if it has no wildcard and no escape character in it |
| LikePattern.SqliteLikeIgnoresAsciiCase | packages/backend-data/src/utils/LIKEUtil.ts:21-30 | under SQLite's LIKE it is one up to the case of ASCII letters |
| CostExplorer.AccumulatePeriod | packages/provider-clients/src/aws/CostExplorerClient.ts:118-148 | the loop folds a result's groups into its period |
| CostExplorer.GetCostAndUsage | packages/provider-clients/src/aws/CostExplorerClient.ts:57-105 | terminates over finitely many tokens and returns the accumulation of all pages followed, with rounded totals |
| CostExplorer.EveryPageIsRead | packages/provider-clients/src/aws/CostExplorerClient.ts:66-95 | the results are those of all pages that follow one another by their tokens, up to the first without a token or with a repeated one, or the error of the first page on the way that fails; if and only if |
| CostExplorer.ReportedPeriods | packages/provider-clients/src/aws/CostExplorerClient.ts:97-148 | each key that arrived is reported once, with the first arrival's dates, the last unit named, each service's cost exactly, and the total in whole cents within half a cent |
| CostExplorer.OnlyArrivalsAreReported | packages/provider-clients/src/aws/CostExplorerClient.ts:97-104 | and no other period is reported |
| CostExplorer.ReportedInArrivalOrder | packages/provider-clients/src/aws/CostExplorerClient.ts:97-104 | in the order of first arrival |
| CostExplorer.PeriodLabels | packages/provider-clients/src/aws/CostExplorerClient.ts:125-140 | dates, currency and services of a period before rounding |
| CostExplorer.RoundedIsNearest | packages/shared/src/utils/MoneyUtil.ts:14-16 | a reported total is the whole number of cents nearest to its breakdown's sum, halves upwards |
| CostExplorer.OneEntryPerPeriod | packages/provider-clients/src/aws/CostExplorerClient.ts:128-132 | one entry per period, holding the fold of all its groups in arrival order |
| CostExplorer.PeriodFigures | packages/provider-clients/src/aws/CostExplorerClient.ts:134-147 | a total is the sum of its positive amounts and of its breakdown; each service's cost is the sum of its own |
| CostExplorer.SplitDoesNotMatter | packages/provider-clients/src/aws/CostExplorerClient.ts:107-117 | how groups are split over pages and results changes no figure, currency or breakdown |
| CostExplorer.OrderDoesNotMatter | packages/provider-clients/src/aws/CostExplorerClient.ts:134-147 | nor does the order of a period's groups change its total or any service's cost |
| MigrationLock.WrittenLockParses | scripts/migrations/verify-migrations.ts:91-101 | a written lock reads back as itself |
| MigrationLock.FindBaseline | scripts/migrations/lock-check.ts:149-157 | the highest-numbered squash, or none |
| MigrationLock.MigrationNameIsComposed | scripts/migrations/lock-check.ts:130-135 | a name is a migration's exactly when it is put together from four digits, words joined by single underscores and the extension, and a squash when its only word is squash |
| Text.LeqIsCodeUnitOrder | scripts/migrations/lock-check.ts:152 | one name comes before another exactly when it is a prefix of it or has the smaller code unit where they first differ |
| MigrationLock.CheckMigrations | scripts/migrations/lock-check.ts:293-405 | the loops compute findings, missing files and the updated lock |
| MigrationLock.ReportMeans | scripts/migrations/lock-check.ts:247-405 | the whole report: besides what parsing found, a finding of each of the seven kinds is in it if and only if it has cause on disk and in the lock |
| MigrationLock.EditedMeans | scripts/migrations/lock-check.ts:333-350 | a file is reported as edited exactly when its lock entry holds another digest and no squash on disk sorts at or after it |
| MigrationLock.MalformedMeans | scripts/migrations/lock-check.ts:177-245 | which malformed findings parsing reports of a JSON object, and exactly when |
| MigrationLock.BuildUpdated | scripts/migrations/lock-check.ts:425-464 | the loops compute the updated lock, none when malformed |
| MigrationLock.LateMeansPassedOver | scripts/migrations/lock-check.ts:378-395 | a file is out of order exactly when it is unlocked and some locked name sorts after it |
| MigrationLock.DuplicateMeansShared | scripts/migrations/lock-check.ts:268-285 | a prefix is reported exactly when two different well-named migrations share it |
| MigrationLock.UpdatedLock | scripts/migrations/lock-check.ts:443-456 | the updated lock has one entry per file on disk: recorded digests kept, new files and the baseline at their digest on disk |
| MigrationLock.UpdatedEntry | scripts/migrations/lock-check.ts:425-464 | entry by entry: a file keeps the digest it was locked with, unless it was not locked or is the highest squash, which take the digest on disk |
| MigrationLock.EditedSurvives | scripts/migrations/lock-check.ts:417-419 | an incremental edit is reported after a write exactly as before it, and nothing is missing |
| MigrationLock.RecheckAfterWrite | scripts/migrations/verify-migrations.ts:115-118 | re-checking after a write reports the earlier edited findings and the name and prefix findings of the files on disk, and nothing else |
| MigrationLock.SecondWriteChangesNothing | scripts/migrations/verify-migrations.ts:86-101 | a second write is a fixed point |
| MigrationLock.WriteReplacesOnlyLocks | scripts/migrations/lock-check.ts:177-245 | a write replaces the lock exactly when there is none or it has the shape of one: version, optional baseline name, tagged digests; anything else stays |
| MigrationLock.RecordedBaselineExemptsNothing | scripts/migrations/lock-check.ts:308-331 | changing only the recorded baseline changes no finding but whether it is stale |

## Left out

- Encryption: a stored field is missing, readable or unreadable; AES-GCM, key chains and initialisation vectors are not modelled, nor the error when no cache key is configured.
- KV retention: an entry may vanish at any time (`Drop`), which covers the store's own expiry; eventual consistency is not modelled.
- STS session names, durations and clock: STS answers by role and calling credentials alone, so two assumptions of one role with the same credentials give the same session.
- InteractiveAssume.FindClosestCachedCredential: assumes that the clock does not run backwards during a call, as does `GetCredentialChainToFirstCachedPrincipal`. In the machine one round of the walk, a cache lookup and a row read, is one step, and so are an STS answer and the store of its session, and the whole cold walk of a refresh.
- ChainCacheRoutes.CachedLeafIsColdLeaf: assumes that STS refuses session credentials without their token, as AWS STS does; `DroppedTokenSpoilsTheCache` shows that limits above three need it, `LongTermBasesKeepTokens` when it is not needed.
- ChainCacheRoutes.ServedRouteBound: assumes an unchanged table, because a relationship write drops only the written principal's entry; `ServedChainMeansTrueChain`, `WriteReachesOnlyRoutesThroughIt` and `RemovalReachesOnlyRoutesThroughIt` say what holds under writes.
- AddressMachine.NeverLockedOut: assumes one change in flight per account and, for an unregistered current address, that no other account claims it; `TwoChangesAtOnceLockOut` and `TakenLocksOut` show that both are needed.
- AddressServices.AddressRegistryService.Load: takes a trimmed address that is not empty, as its only caller passes it; the per-request memo in front of it is not modelled.
- AddressServices.UserEmailDAO.Register: answers already-claimed for the account's own verified row too, as the code does, so an account cannot make a linked address its primary one.
- Schemas before migration 0032, failing address lookups, and Unicode case folding: addresses fold ASCII letters only.
- `scripts/ops/change-email.ts`, which applies the change out of band.
- Logging, and the `enabled` and `collection_type` filters of the collection queue: the modelled rows are the enabled ones of one type.
- WorkQueue.AttemptedWithinBound: is about a fixed set of rows and stamps that succeed; a row whose stamp keeps failing keeps its place.
- ResourceInventory.CollectForAccount: takes what the collectors returned as values, and prunes in any order.
- Replay.ReplayGuard.Claim: takes the get and put of a claim as one step; overlapping claims are best effort by design.
- Replay.SignedRequestIsAccepted: takes the sender's headers as they are sent, with distinct names and the internal ones in lower case, as the constants spell them; a caller's additional header that repeats a name is not modelled.
- Replay.SingleUse: is about a healthy store; what a failing store does is in `Claim` and `ValidateInternalRequest`.
- SHA-256, base64 and timing: the body hash is a string, decoding a function, and nothing is said about run time.
- AccountPaging.PageMapCarriesAllRoles: favourites are a set, so duplicate favourite rows in the join are not modelled; nor are page clamping and the search query.
- The collation behind `localeCompare`: any order that is total on the names at hand.
- MigrationLock.WrittenLockParses: JSON text is modelled as its value; `--write` output and exit codes are not. Entries for files no longer on disk vanish on `--write`, incremental ones too, as the code has it and against the prose above it.
- CostExplorer.GetCostAndUsage: amounts are reals, so floating-point error and amounts that are not numbers are not modelled; the service answers by token.
- User interface, deployment, backup, rate limits, retries, pruning loops, plain data access objects and request schemas: they would only add easy members.
