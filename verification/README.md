# A model of the UniBooks backend's protocols

The backend is a Django marketplace for second-hand textbooks. Most of it stores and serves rows. This project
models the parts that are protocols, in Dafny 4.11, and proves what they promise over every run:

- **Sign-in tokens** (`TokenStore`, `RefreshRequest`, `RefreshRuns`, `RefreshSequential`, `RefreshRaces`,
  `PurgeInvisible`, `PurgeRuns`, `MigratingStore`): refresh-token rotation with a 60-second grace window, a chain per sign-in (after section 10.4 of
  RFC 6749), the cleanup job's purge, and the move from cache entries to Postgres rows. `Advance` is one store call,
  answered or not; `RefreshRuns` interleaves any number of requests at those calls.
- **Orders and listings** (`Marketplace`, `MarketplaceEffects`, `MarketplaceService`, `OrderLocks`): the status machine as atomic steps, the
  views as methods on rows, and the row locks that make the one the other.
- **Cached pages** (`GenerationCache`, `CacheCoherence`): keys stamped with two generation counters, slow readers,
  bumps, evictions.
- **School codes and the bulk import** (`SchoolCodes`, `SchoolCodeShapes`, `BulkImport`, `BulkImportRuns`,
  `BulkImportOutcome`, `BulkImportView`).
- **The meetup-reminder cron** (`MeetupReminders`, `MeetupReminderRuns`), **the rate limiter** (`Throttle`), **book merge and its undo**
  (`BookMerge`), **sitemap pages** (`Sitemap`), **ISBN arithmetic** (`Isbn`, after clause 4 of ISO 2108) and **engine
  fallback** (`Engines`).

Code that changes rows is a class whose methods are proved equal to a function of the old state; what each function
does is then stated on the rows before and after, without its definition, and the theorems are about runs of them. `dafny verify dfyconfig.toml` checks everything.

## Where the code does not do what its comments or its callers expect

Each of these is a lemma below; the one named last has the exact condition.

- An order PATCH that names neither a status nor a meetup passes every check. On a completed order it marks the listing
  sold again, also when the seller has listed the copy anew and accepted another order; then two orders can hold one
  copy (`Marketplace.TwoOrdersHoldOneCopy`, `Marketplace.SoundByStep`).
- A takedown does not outlast a meetup edit: the order stays accepted, so its listing is marked reserved again, and
  cancelling puts it on sale, locked. A deleted account's listing comes back the same way, by the buyer's empty update
  and cancel (`Marketplace.TakedownUndone`, `Marketplace.AccountDeletionUndone`, `Marketplace.TakedownByStep`).
- `MigratingTokenStore` says a failed legacy revocation only leaves an entry lookup no longer reaches. The row that hid
  the entry is the one deleted, so the next lookup adopts the entry and the token is live again
  (`MigratingStore.RevokeTakesEffect`). Revoking a chain never touches the cache, with the same effect on a token of the
  chain that is still there (`MigratingStore.RevokeChainRefines`).
- The view calls a token it finds rotated, past its grace lookup, "a replay, not a race". When another request's rotation
  falls between the two lookups it is a race, and this request revokes the chain with the pair just handed out
  (`RefreshRaces.RaceRevokesNewPair`, `RefreshRaces.TakenForReplay`).
- A revocation between the two writes of a rotation re-creates the presented row without its family
  (`RefreshRuns.OrphanedByRevocation`, `RefreshRuns.FamiliesKeptByStep`).
- At exactly 60 seconds `get_grace_tokens` still honours a pair that `purge` already blanks
  (`PurgeInvisible.PurgeAtTheBoundary`, `PurgeRuns.PurgeUnnoticed`).
- A meetup rescheduled after a reminder run has read its order, and before it has written it, counts as reminded: the
  mails gave the old time, whether they went out before the change or after it
  (`MeetupReminders.RescheduleMidRunIsMissed`, `MeetupReminders.WriteTells`).
- The record of a merge does not hold a book's review. Nor does it hold a dropped subscription's region, but the API
  takes that from the same request as the book, so that only edits outside it can make the two differ
  (`BookMerge.UndoRestores`).
- A file that names a domain twice can plan two schools onto one code, or one new school twice; the database refuses a
  write and the ones before it stand (`BulkImport.RepeatedDomainBreaksIt`, `BulkImportRuns.NewSchoolTwiceStops`,
  `BulkImport.ClaimExactly`).
- A counter evicted and seeded within the second it was first seeded in, with a bump in between, serves a stale page
  (`CacheCoherence.StaleWithinTheSecond`, `CacheCoherence.StaleBodyExactly`).

## Model

| member | source | states |
|---|---|---|
| TokenStore.PostgresTokenStore.Record | accounts/token_store.py:129-135 | a new row of the given chain with a full lifetime, or nothing at all when the jti exists |
| TokenStore.PostgresTokenStore.Get | accounts/token_store.py:137-162 | an unexpired row as a record; a row without a family heads its own chain |
| TokenStore.PostgresTokenStore.MarkRotated | accounts/token_store.py:164-173 | the row becomes a rotation record and keeps its family; a missing row is created without one |
| TokenStore.PostgresTokenStore.Revoke | accounts/token_store.py:180-181 | deletes the row only while it is live |
| TokenStore.PostgresTokenStore.RevokeAll | accounts/token_store.py:183-184 | deletes exactly the user's live rows |
| TokenStore.PostgresTokenStore.RevokeFamily | accounts/token_store.py:186-192 | deletes exactly the user's live rows of the chain, a head from before families included |
| TokenStore.PostgresTokenStore.Purge | accounts/token_store.py:194-206 | the expired rows are gone and no others, no pair is left sixty seconds after its rotation, and nothing else has changed |
| TokenStore.PurgeCleans | accounts/token_store.py:194-206 | the same of the function the theorems about purges use |
| RefreshRequest.RefreshTokenView.RotationRecordOf | accounts/services.py:126-132 | the rotation record of this jti when it is this user's |
| RefreshRequest.RefreshTokenView.RevokeTokenFamily | accounts/services.py:197-213 | is the tail of a request standing at its replay lookup, whichever of its calls fail |
| RefreshRequest.RefreshTokenView.VerifyAndRevoke | accounts/services.py:255-287 | is the tail of a request standing at its verifying lookup, whichever of its calls fail |
| RefreshRequest.RefreshTokenView.Logout | accounts/views/auth.py:566-588 | one device's sign-out always answers the same, and takes away a live token of its own when its two calls are answered |
| RefreshRequest.RefreshTokenView.Post | accounts/views/auth.py:350-401 | the view's calls, branches and early returns are the step function run to its end |
| RefreshRequest.FromGrace | accounts/views/auth.py:363-380 | a refresh hands a pair back, is a replay, or goes on to the whitelist, in this order and with a 503 when a call goes unanswered |
| RefreshRequest.FromWhitelist | accounts/views/auth.py:382-396 | what each whitelist answer leads to, the wrong owner's sign-ins being revoked |
| RefreshRequest.FromFamily | accounts/views/auth.py:398-400 | which rows the rotation's three calls leave, by the first that fails |
| RefreshRequest.RefreshOfLiveToken | accounts/services.py:216-243 | a live token is rotated exactly when all six calls are answered; otherwise the reply is 503 and the token is as it was |
| RefreshRequest.RetrySucceeds | accounts/services.py:64-76 | after a 503 the same token can be presented again and is then rotated |
| RefreshRequest.FromVerify | accounts/services.py:255-287 | what each answer of the verifying lookup leads to: the live token gone, the other owner signed out everywhere, or nothing |
| RefreshRequest.SignOutRevokes | accounts/views/auth.py:566-588 | exactly which rows a sign-out takes, by whose token it is and which calls are answered |
| RefreshRequest.RefreshOfDisabledAccount | accounts/views/auth.py:385-393 | a disabled account's refresh is refused and loses its token; one whose account is gone is refused and loses nothing |
| RefreshRuns.OkNext | accounts/services.py:92-124 | every row and every request in flight belongs to the user of the sign-in it descends from, after each step |
| RefreshRuns.OkRun | accounts/services.py:92-124 | the same over every interleaving |
| RefreshRuns.FamiliesKeptByStep | accounts/token_store.py:164-173 | one step keeps every row in the chain of its sign-in if and only if it is not one of the two orphaning calls |
| RefreshRuns.FamiliesKept | accounts/services.py:185-194 | over any interleaving that removes no row being rotated, every row keeps the chain of its sign-in |
| RefreshRuns.NothingYet | accounts/token_store.py:116-127 | the runs may start from an empty store |
| RefreshRuns.OrphanedByRevocation | accounts/token_store.py:164-173 | without that assumption it fails: a row deleted mid-rotation comes back as its own chain |
| RefreshRuns.ReplayKillsChain | accounts/services.py:197-213 | a replay's revocation leaves no live row in its chain and every row of other chains, and every rotated row, as it was |
| RefreshRuns.ReplayEndsChain | accounts/views/auth.py:370-380 | a replay past the grace window is refused, its chain has no live row from then on in any continuation, and no other chain loses a row |
| RefreshRuns.DeadForever | accounts/token_store.py:186-192 | once a chain has no live row and no rotation in flight, no run revives it |
| RefreshRuns.NeverLiveAgain | accounts/services.py:156-163 | no later lookup in any run reports a rotated or revoked jti as live |
| RefreshRuns.SignOutEndsToken | accounts/views/auth.py:566-588 | among any requests, an answered sign-out removes exactly the presented row, which no later lookup of any run reports live |
| RefreshRuns.RevocationSticks | accounts/services.py:286 | so does its revoking call whatever came between it and the lookup before it |
| RefreshRaces.TakenForReplay | accounts/views/auth.py:363-380 | a refresh whose token is within its grace window by the second lookup is taken for a replay if and only if the first lookup had no pair for it and the rotation fell between the two |
| RefreshRaces.RaceRevokesNewPair | accounts/views/auth.py:363-380 | such a race ends the sign-in just rotated, the pair handed to the other request included |
| RefreshRaces.RecentIsHonoured | accounts/services.py:135-153 | in every run a token rotated less than 60 seconds ago is one whose pair a lookup hands back |
| RefreshSequential.DeliveredByCall | accounts/services.py:92-124 | a reply hands over only pairs delivered before or the one just recorded |
| RefreshSequential.AtMostOneLiveToken | accounts/views/auth.py:383-401 | with requests one at a time and any call failing, each chain has at most one live token a client was given |
| RefreshSequential.NothingDelivered | accounts/token_store.py:116-127 | so may the runs of requests one at a time |
| PurgeInvisible.PurgeAlike | accounts/token_store.py:194-206 | purge leaves an indistinguishable store if and only if no record is exactly 60 seconds old |
| PurgeInvisible.PurgeAtTheBoundary | accounts/services.py:135-153 | on that boundary the same request gets a pair before the purge and a refusal after it |
| PurgeRuns.NextAlike | accounts/token_store.py:194-206 | no step of any request, sign-in, revocation or purge tells such stores apart, unless it marks a rotation on an expired row |
| PurgeRuns.PurgeChangesNoRequest | accounts/token_store.py:194-206 | a purge at any moment, between any store calls of any requests, changes where no request stands and what none is answered, off the boundary or once the clock has moved |
| PurgeRuns.PurgeOnTheBoundary | accounts/services.py:135-153 | on the boundary the next request can be answered differently |
| PurgeRuns.PurgeUnnoticed | accounts/token_store.py:194-206 | a purge goes unnoticed by everything that may follow if and only if no record is exactly 60 seconds old |
| MigratingStore.LegacyCacheTokenStore.Get | accounts/token_store.py:93-104 | a cache entry as a live or rotated record without a family |
| MigratingStore.LegacyCacheTokenStore.RevokeAll | accounts/token_store.py:109-113 | drops the entries on the user's list, then the list |
| MigratingStore.LegacyListEmptied | accounts/token_store.py:109-113 | the user's list is empty, every other list and entry stands |
| MigratingStore.MigratingTokenStore.Get | accounts/token_store.py:226-234 | the Postgres record, else the cache's, which is copied across |
| MigratingStore.MigratingTokenStore.Adopt | accounts/token_store.py:236-244 | a rotated entry becomes a rotation record, a live one heads its own chain |
| MigratingStore.MigratingTokenStore.Revoke | accounts/token_store.py:252-254 | both stores, the second only when the cache answers |
| MigratingStore.MigratingTokenStore.RevokeAll | accounts/token_store.py:256-258 | both stores, the second only when the cache answers |
| MigratingStore.MigratingTokenStore.RevokeFamily | accounts/token_store.py:260-263 | Postgres rows only |
| MigratingStore.MigratingTokenStore.Purge | accounts/token_store.py:265-266 | Postgres rows only |
| MigratingStore.AdoptionKeepsView | accounts/token_store.py:236-244 | adopting an entry changes what no lookup reports, up to the family default, if and only if it is not a rotation record without a time |
| MigratingStore.UntimedHonouredOnce | accounts/services.py:147-150 | such a record's pair is handed back by the lookup that adopts it and by no lookup after any run of operations since |
| MigratingStore.RevokeTakesEffect | accounts/token_store.py:252-272 | a revoked token is live again if and only if the cache call failed and the cache holds it live; other tokens are untouched |
| MigratingStore.RevokeAllTakesEffect | accounts/token_store.py:256-272 | exactly which of a user's tokens outlive a revocation of all |
| MigratingStore.StepRefines | accounts/token_store.py:209-272 | each of the seven operations on two stores is one on a single map of live tokens |
| MigratingStore.RevokeChainRefines | accounts/token_store.py:260-263 | revoking a chain removes its live tokens from that map if and only if none of them is still live in the cache |
| MigratingStore.MigrationRefinesOneMap | accounts/token_store.py:209-272 | so is every run within one token lifetime |
| Marketplace.TransitionTablesAgree | orders/serializers.py:116-133 | a transition has an actor exactly when the serializer allows it |
| Marketplace.OkFitting | orders/services.py:31-43 | an order's change of status with the matching change of its listing keeps the invariant |
| Marketplace.UpdateFits | orders/views/orders.py:267-287 | every order update the view lets through is such a change, but for the one that sells a listing again |
| Marketplace.OkEdit | listings/serializers.py:100-113 | seller edits, takedowns, account deletions, new listings and new orders keep the invariant |
| Marketplace.OkDelete | adminapi/views/listings.py:163-187 | so do deletions by the seller and by the platform |
| Marketplace.SoundByStep | orders/views/orders.py:319-360 | an operation keeps the four promises of the order flow if and only if it is not an empty update of a completed order whose listing is reserved again |
| Marketplace.SoundOverRuns | orders/views/orders.py:183-190 | over every other run: one holder per listing, a reserved listing has one, a held listing is reserved, locked or its seller gone, an order without a listing is final |
| Marketplace.NamedUpdatesAreSound | orders/views/orders.py:267-287 | the same over every run whose order updates name a status or a meetup |
| Marketplace.EmptyMarketOk | orders/models.py:12-60 | the runs may start from an empty market |
| Marketplace.TwoOrdersHoldOneCopy | orders/views/orders.py:319-360 | otherwise three ordinary requests leave two orders holding one listing |
| Marketplace.TakedownByStep | orders/views/orders.py:356-360 | a listing taken down, or removed with its seller's account, leaves that status by exactly one kind of step, a saved update of an order on it that ends accepted or completed |
| Marketplace.TakedownLasts | moderation/views/reports.py:115-127 | over every run without one it stays removed, and locked if it was, or goes |
| Marketplace.TakedownUndone | orders/views/orders.py:319-360 | a meetup edit and a cancel put it on sale again, locked |
| Marketplace.AccountDeletionUndone | orders/views/orders.py:319-360 | the buyer's empty update and cancel put a deleted account's listing on sale again |
| MarketplaceEffects.UpdateOpenTo | orders/views/orders.py:183-190 | exactly who may ask for which update of an order, in which state of it and its listing |
| MarketplaceEffects.UpdateEffect | orders/views/orders.py:319-360 | what a saved update leaves of the order, of its listing by the status the order ends with, and of everything else |
| MarketplaceEffects.UpdateRefused | orders/views/orders.py:267-287 | any other update changes nothing |
| MarketplaceEffects.PlatformCancelEffect | orders/services.py:46-71 | an order that is not over is cancelled and its reservation released; one that is over stands |
| MarketplaceEffects.EditEffect | listings/serializers.py:100-113 | exactly which edits of a seller are saved, and that they are saved whole |
| MarketplaceEffects.TakedownEffect | moderation/views/reports.py:115-127 | the listing is removed and locked, and nothing else changes |
| MarketplaceEffects.DeleteAccountEffect | accounts/models.py:245-272 | all and only the account's listings are removed |
| MarketplaceEffects.CreationEffect | orders/serializers.py:81-98 | a listing starts on sale, an order pending with its buyer and the listing's seller, on a listing for sale and not one's own |
| MarketplaceEffects.DeletionEffect | listings/views/listings.py:335-348 | which deletions happen and what becomes of each order |
| MarketplaceEffects.RunEnters | orders/views/orders.py:183-190 | however a run got there, an order reached each status by one person's move from the one before it |
| MarketplaceEffects.CompletedStepByStep | orders/views/orders.py:183-190 | a completed order was accepted and handed over by its seller and then confirmed by its buyer |
| MarketplaceEffects.CompletionSells | orders/views/orders.py:356-360 | the confirmation leaves the listing sold and held by nobody |
| MarketplaceEffects.SoldStaysOffSale | orders/views/orders.py:356-360 | over every run it is not on sale again until its seller puts it there |
| MarketplaceService.MarketplaceService.ReleaseReservation | orders/services.py:31-43 | undoes only a reservation the order held |
| MarketplaceService.MarketplaceService.UpdateOrder | orders/views/orders.py:267-287 | the checks in their order; the new state is one step of the machine, and when it is saved |
| MarketplaceService.MarketplaceService.PerformUpdate | orders/views/orders.py:319-360 | refuses an accept on a listing not for sale, else writes the order and what its status means for the listing |
| MarketplaceService.MarketplaceService.PlatformCancel | orders/services.py:46-71 | cancels any order that is not final and releases its listing |
| MarketplaceService.MarketplaceService.CancelOpenOrders | adminapi/views/listings.py:170-183 | the loop cancels exactly the listing's open orders and touches no other listing |
| MarketplaceService.MarketplaceService.DeleteAsPlatform | adminapi/views/listings.py:163-187 | refused with open orders and no written reason; else open orders cancelled, the rest kept without the listing |
| MarketplaceService.MarketplaceService.CreateOrder | orders/serializers.py:81-109 | a pending order on a listing for sale in the request's region, not one's own, after a chat |
| MarketplaceService.MarketplaceService.DeleteAsSeller | listings/views/listings.py:335-348 | deleted only unlocked and without open orders |
| MarketplaceService.MarketplaceService.TakeDown | moderation/views/reports.py:115-127 | removes and locks the listing |
| MarketplaceService.MarketplaceService.DeleteAccount | accounts/models.py:245-272 | the loop takes every listing of the account off sale |
| MarketplaceService.MarketplaceService.EditListing | listings/views/listings.py:267-333 | what a seller may change, and the whole row written back; nothing when the checks on a manual book refuse |
| OrderLocks.NoDeadlock | orders/services.py:13-28 | in every reachable state with work left some transaction can step |
| OrderLocks.CommitIsAtomic | orders/services.py:13-28 | what a transaction commits from the rows it read under its locks is the atomic operation on the committed state |
| OrderLocks.CommitWritesLockedRows | orders/services.py:13-71 | a commit writes only rows its transaction has locked |
| OrderLocks.OkStep | listings/views/listings.py:259-275 | locks are held by one transaction each and every copy read under a lock is still what is committed |
| OrderLocks.EndsOrGoesOn | orders/views/orders.py:256-268 | a step commits exactly its atomic operation or changes nothing visible |
| OrderLocks.EveryRunIsSerializable | orders/services.py:13-71 | every schedule in which all transactions end reaches the state of the same transactions run one after the other, each once, and none gets stuck |
| OrderLocks.StepsMakeProgress | orders/services.py:13-28 | a step brings its transaction nearer its end and moves no other |
| GenerationCache.GenerationCache.CacheVersion | core/cache.py:76-92 | an absent counter is seeded from the clock; a failure at any of the three cache calls reads as 0 |
| GenerationCache.GenerationCache.BumpCacheVersion | core/cache.py:95-115 | a present counter is incremented, an absent one set from the clock; a bump the cache does not answer is lost |
| GenerationCache.GenerationCache.RegionVersionedKey | core/cache.py:122-133 | the key carries both current generations |
| GenerationCache.GenerationCache.Read | listings/views/listings.py:235-251 | what is stored under the key is returned; otherwise the page is built and stored, or there is none |
| GenerationCache.GenerationCache.InvalidateListingCaches | listings/models.py:146-168 | bumps the region's lists, the page everywhere and the region's book pages |
| GenerationCache.KeysDiffer | core/cache.py:122-133 | two keys are the same exactly for one page at the same two generations |
| GenerationCache.ListingSaveSpares | listings/models.py:146-168 | a saved listing leaves other regions' lists and book pages, and other listings' pages, under their keys |
| CacheCoherence.BumpOk | core/cache.py:95-115 | a bump's number rewrites no history if and only if it is new or was last issued with nothing newer bumped for |
| CacheCoherence.StepReaderOk | listings/views/listings.py:235-251 | each step of a reader keeps every stored body no older than its key's generations |
| CacheCoherence.OkRun | core/cache.py:76-133 | over every interleaving whose numbers are fresh in that sense |
| CacheCoherence.NoStaleRead | core/cache.py:76-133 | a read begun after a bump never returns a body built before the write, slow stores and evictions included |
| CacheCoherence.BumpRetiresFamily | core/cache.py:95-115 | after a bump no body older than its write is under a key of the family, and none at all when the number is new |
| CacheCoherence.RegionalBumpSparesOthers | core/cache.py:118-133 | a regional bump changes no key of another region |
| CacheCoherence.ReadAlone | listings/views/listings.py:235-244 | a read returns what is stored under the key of its two counters |
| CacheCoherence.ReadAloneStores | listings/views/listings.py:235-251 | and when nothing is, builds the page from every visible write and stores it there |
| CacheCoherence.ListingSaveReaches | listings/models.py:146-168 | which pages a listing's save can no longer leave stale |
| CacheCoherence.StaleBodyExactly | core/cache.py:84-88 | a counter's number can bring back a body older than its writes if and only if it was issued at a lower floor and the page's other counter is no newer |
| CacheCoherence.StaleAfterReissue | core/cache.py:95-115 | a bump that issues such a number serves that body to a read begun after it |
| CacheCoherence.StaleAfterSeed | core/cache.py:84-90 | so does a read that seeds one |
| CacheCoherence.StaleWithinTheSecond | core/cache.py:84-115 | for instance when a write, its bump and the counter's eviction fit in the second it was seeded in |
| CacheCoherence.ClockAheadIsEnough | core/cache.py:84-88 | with the clock past every generation handed out, numbers are always fresh |
| SchoolCodes.NormalizeIsIdempotent | accounts/school_codes.py:25-30 | normalising a stored code changes nothing |
| SchoolCodes.DerivedCodeIsValid | accounts/school_codes.py:37-47 | every domain derives a valid code |
| SchoolCodeShapes.DerivedLength | accounts/school_codes.py:45-47 | as many characters as the first label has usable ones, up to twenty; SCHOOL exactly when it has none |
| SchoolCodeShapes.DerivedAt | accounts/school_codes.py:45-47 | each of them is that usable character, upper-cased and in order |
| SchoolCodeShapes.DerivedFromLabel | accounts/school_codes.py:37-47 | a label of one to twenty letters, digits and dashes is the code, upper-cased position by position |
| SchoolCodeShapes.StrippedRight | accounts/school_codes.py:45 | stripping takes only white space, at the end |
| SchoolCodeShapes.StrippedLeft | accounts/school_codes.py:45 | and at the beginning |
| SchoolCodeShapes.LabelOf | accounts/school_codes.py:45 | the label ends at the first dot |
| SchoolCodeShapes.NormalizedAt | accounts/school_codes.py:25-30 | normalising drops white space and upper-cases the rest in order |
| SchoolCodeShapes.NormalizedValidity | accounts/school_codes.py:33-34 | a normalised code is valid exactly when it has one to twenty capitals, digits and dashes |
| SchoolCodeShapes.DecimalIsNumeral | accounts/school_codes.py:61 | the suffix is the number in decimal |
| SchoolCodeShapes.DedupedShape | accounts/school_codes.py:50-65 | a free base is the code; a taken one is cut to leave room and given the least number that is free |
| SchoolCodes.CandidateIsInjective | accounts/school_codes.py:59-64 | distinct numbers give distinct candidates, even trimmed |
| SchoolCodes.CollisionsBounded | accounts/school_codes.py:50-65 | no more candidates collide than codes are taken |
| SchoolCodes.FirstFree | accounts/school_codes.py:59-64 | the first free number, at most two past the count of the taken |
| SchoolCodes.Dedupe | accounts/school_codes.py:50-65 | the loop ends and returns that candidate, or the base when it is free |
| SchoolCodes.DedupedCodeFits | accounts/school_codes.py:50-65 | twenty characters suffice below 10^18 taken codes |
| SchoolCodes.DedupedDomainIsValid | accounts/school_codes.py:37-65 | what callers ask for: the deduped code of any domain is valid and not taken |
| SchoolCodes.DedupedCodeIsValid | accounts/school_codes.py:33-65 | for any base at all: a valid one gives a valid code if and only if it is not a taken one ending in a newline, which normalising rules out, with room for the suffix |
| BulkImport.PlanItemCases | adminapi/views/schools.py:153-196 | a refused item changes neither the codes nor the plan |
| BulkImport.ClaimDescribes | adminapi/views/schools.py:189-195 | releasing and claiming a code is the change of one row |
| BulkImport.PlanDescribesRegion | adminapi/views/schools.py:132-196 | `taken` and `code_owner` are after each item exactly the region's codes with the plan so far applied |
| BulkImport.EveryWriteKeepsCodesDistinct | adminapi/views/schools.py:214-253 | after each single write of the apply loop the region's codes are distinct |
| BulkImport.ClaimExactly | adminapi/views/schools.py:189-195 | when a claim keeps the two maps right for a school that has a row by then, loaded or planned earlier in the file |
| BulkImport.RepeatedDomainBreaksIt | adminapi/views/schools.py:189-195 | a file naming a domain twice is planned without complaint onto one code twice |
| BulkImportRuns.ItemSettled | adminapi/views/schools.py:214-253 | what applying the file leaves for each of its items |
| BulkImportRuns.ImportIsIdempotent | adminapi/views/schools.py:132-253 | an accepted file is accepted again with no new and no modified school |
| BulkImportRuns.CodelessItemsRefuseNothing | adminapi/views/schools.py:135-188 | a file refuses the same codes, as invalid and as taken, with and without its items that spell none out, each with the reserved codes of its own |
| BulkImportRuns.NoViolation | adminapi/views/schools.py:214-253 | no write of the plan meets a unique constraint |
| BulkImportRuns.DistinctFileApplies | adminapi/views/schools.py:214-253 | the apply loop over a file that names each domain once writes the plan and lists each item by its kind |
| BulkImportRuns.StoppedAtItem | adminapi/views/schools.py:214-249 | any other file may stop at a refused write, and exactly the items before it have been written |
| BulkImportRuns.StopsOnlyAtItem | adminapi/views/schools.py:214-249 | and stops for no other cause |
| BulkImportRuns.NewSchoolTwiceStops | adminapi/views/schools.py:214-228 | a school new to the table and named twice always stops it |
| BulkImportRuns.ApplyingKeepsCodes | adminapi/views/schools.py:214-253 | wherever it stops the region's codes are distinct |
| BulkImportOutcome.SetAsideExactly | adminapi/views/schools.py:155-166 | an item is set aside exactly when it names another region or a school of one |
| BulkImportOutcome.CityRefusedExactly | adminapi/views/schools.py:168-174 | a domain is refused for its city exactly when an item here names one the region does not have |
| BulkImportOutcome.CodeRefusedExactly | adminapi/views/schools.py:179-184 | a domain is refused for its code exactly when an item here spells out an unusable one |
| BulkImportOutcome.ClashesExactly | adminapi/views/schools.py:184-187 | a code clashes exactly when another school of the region has it by then |
| BulkImportOutcome.ItemLeaves | adminapi/views/schools.py:214-249 | the row each item leaves: what it gives is stored, what it leaves out is as it was, or empty in a new school |
| BulkImportOutcome.NewSchoolGetsItsCode | adminapi/views/schools.py:187-188 | a new school without a code gets its domain's when that is free |
| BulkImportOutcome.OthersStand | adminapi/views/schools.py:214-249 | schools the file does not import are as they were |
| BulkImportOutcome.ReportedExactly | adminapi/views/schools.py:214-251 | each planned item is reported as new, modified or unchanged |
| BulkImportOutcome.ReportedOnce | adminapi/views/schools.py:214-251 | and once |
| BulkImportView.AdminSchoolBulkImportView.LoadOwners | adminapi/views/schools.py:130-134 | the owner of each code of the region |
| BulkImportView.AdminSchoolBulkImportView.PlanFile | adminapi/views/schools.py:132-196 | the planner loop computes the plan |
| BulkImportView.AdminSchoolBulkImportView.PlanOne | adminapi/views/schools.py:148-196 | one turn of it, its checks in their order |
| BulkImportView.AdminSchoolBulkImportView.ApplyPlan | adminapi/views/schools.py:214-263 | the loop's rows and reply, for every file, a refused write and what stands of it included |
| BulkImportView.AdminSchoolBulkImportView.Post | adminapi/views/schools.py:102-263 | any refused code or city writes nothing; otherwise the whole plan, a new school's own code included, or in a file that repeats a domain the part before the first refused write |
| MeetupReminders.AtMostOneMail | cron/views.py:225-356 | over runs with edits at any point, nobody gets two mails about an order between two reschedules |
| MeetupReminders.WriteKeepsMarks | cron/views.py:341-356 | writing back keeps the overall mark right if and only if the order lost no reminder since it was read or the run thinks a party is left |
| MeetupReminders.MarkedWhenBothDone | orders/views/orders.py:337-345 | the overall mark is set exactly when both parties are done, while no order of a batch in flight is rescheduled |
| MeetupReminders.WriteTells | cron/views.py:250-356 | writing back marks nobody who has not heard of the order's time if and only if it marks nobody for a mail, or no reschedule has come since the mails and they gave the time the order has |
| MeetupReminders.ToldNext | cron/views.py:250-356 | no other step leaves a marked party unaware |
| MeetupReminders.MarkedWereTold | cron/views.py:225-356 | over every run without such a late write, whoever is marked was mailed the current time or could not be reached |
| MeetupReminders.LeftAloneIsInTime | orders/views/orders.py:337-345 | no write is late while no order of a batch in flight is rescheduled |
| MeetupReminders.RescheduleMidRunIsMissed | cron/views.py:229-356 | a reschedule before the mails, or between them and the write, leaves an order nobody hears of again |
| MeetupReminders.StartedBatch | cron/views.py:226-242 | a started run has only accepted, unreminded orders within sixty-five minutes, at most fifty, and leaves out only later ones |
| MeetupReminders.MailsExactly | cron/views.py:283-333 | who gets a mail for an order, and with which time |
| MeetupReminders.OnlyAheadAreMailed | cron/views.py:226-242 | over every run, mails about an order come only from a batch that read it accepted, with its meetup ahead and in the window |
| MeetupReminders.EditLeaves | orders/views/orders.py:333-345 | an edit clears the reminders exactly when it moves the meetup |
| MeetupReminderRuns.CoveredByLastRun | cron/views.py:31-39 | with runs at most 65 minutes apart and at most 50 orders due, a meetup is in the batch of the last run before it |
| MeetupReminderRuns.WholeRun | cron/views.py:225-356 | an undisturbed run's events are what the view leaves behind |
| MeetupReminderRuns.MeetupReminderView.PickTargets | cron/views.py:262-276 | who still needs a mail, one person once |
| MeetupReminderRuns.MeetupReminderView.MailTargets | cron/views.py:283-339 | who is mailed and who is marked, unreachable accounts and failed mails included |
| MeetupReminderRuns.MeetupReminderView.RemindOrder | cron/views.py:262-356 | the order's row and mails after its turn |
| MeetupReminderRuns.MeetupReminderView.Run | cron/views.py:225-356 | each of the orders `StartedBatch` describes has its turn, and no other |
| Throttle.PostgresThrottleStore.Hit | core/throttling.py:52-70 | one more hit in the aligned window; allowed below the limit; the wait ends on the next boundary |
| Throttle.PostgresThrottleStore.Purge | core/throttling.py:72-77 | drops the rows whose window began over a day ago |
| Throttle.PurgeDrops | core/throttling.py:72-77 | a counter is kept, as it was, exactly when its window began within a day |
| Throttle.WindowAligned | core/throttling.py:54 | a window starts on the last multiple of its length |
| Throttle.CountersCountHits | core/throttling.py:52-70 | a counter of a live window is the number of hits in it, whatever was purged |
| Throttle.WindowAdmitsExactly | core/throttling.py:43-70 | each aligned window admits the smaller of its requests and the limit |
| Throttle.IntervalAdmitsTwice | core/throttling.py:43-46 | any interval of one window's length admits at most twice the limit |
| Throttle.PurgesChangeNothing | core/throttling.py:48-77 | a run decides every hit as it would without its purges |
| BookMerge.Catalogue.MergeBookInto | catalog/merge.py:12-56 | one book with itself or across regions is refused; otherwise the new rows and the record, whole |
| BookMerge.Catalogue.MoveListings | catalog/merge.py:27-33 | the loop moves every listing of the source and names them |
| BookMerge.Catalogue.MoveSubscriptions | catalog/merge.py:35-49 | duplicates dropped and recorded, the rest moved |
| BookMerge.Catalogue.UndoMerge | adminapi/views/books.py:243-253 | the undo the audit record is kept for |
| BookMerge.NoListingLost | catalog/merge.py:27-33 | every listing is still there, on the target exactly when it was on one of the two |
| BookMerge.SourceGoes | catalog/merge.py:50 | the source goes, nothing points at it, every other book stands |
| BookMerge.DroppedExactly | catalog/merge.py:35-47 | a subscription goes exactly when its user has one to the target, and the record holds it but for its region |
| BookMerge.MergeKeepsUnique | catalog/merge.py:35-49 | no user is subscribed to one book twice |
| BookMerge.MergeUnitesSubscribers | catalog/merge.py:35-49 | the target's subscribers are those of either book |
| BookMerge.MergeSparesOthers | catalog/merge.py:35-49 | subscriptions to other books stand |
| BookMerge.UndoRestores | adminapi/views/books.py:434-441 | the record restores all listings; all subscriptions if and only if the dropped ones are in their book's region; the book if and only if it was not reviewed |
| Sitemap.BuildPages | listings/sitemap.py:111-125 | one pass cuts pages of 5000 with the first id and newest date of each |
| Sitemap.SectionsListEverything | listings/sitemap.py:153-179 | the pages together list every row once and in order, also rows of another time than the bounds, if and only if there were bounds or there is nothing to list |
| Sitemap.ExactlyOnePage | listings/sitemap.py:192-206 | every id lies on one page and no two pages share one |
| Sitemap.FullPages | listings/sitemap.py:153-206 | on the rows the bounds are of, every page but the last has 5000 rows and is dated by the newest |
| Isbn.ChecksumIsRule | catalog/services/isbn.py:17-26 | the check is the standard's: the weighted sum is a multiple of the modulus |
| Isbn.SingleChangeRejected | catalog/services/isbn.py:17-26 | one digit changed is noticed |
| Isbn.SwapInTenRejected | catalog/services/isbn.py:22-25 | any two different digits of an ISBN-10 swapped are noticed |
| Isbn.SwapInThirteen | catalog/services/isbn.py:19-21 | neighbours of an ISBN-13 swapped pass if and only if equal or five apart |
| Isbn.ValidIsRebuilt | catalog/services/isbn.py:47-60 | converting there and back gives the same ISBN if and only if it is valid |
| Isbn.FormsOfOneBook | catalog/services/isbn.py:47-60 | two members of different length, the other one valid; the same set from either if and only if the ISBN is valid |
| Isbn.SharedFormIsSameBook | catalog/services/isbn.py:47-60 | two valid ISBNs share a form if and only if their forms are the same set |
| Isbn.StoredIsFixpoint | catalog/services/isbn.py:29-44 | what is stored is clean and valid and is stored again unchanged |
| Isbn.StoredExactly | catalog/services/isbn.py:29-44 | exactly the conforming tens and the conforming 978 and 979 thirteens are stored, cleaned |
| Isbn.CleanedAt | catalog/services/isbn.py:13 | cleaning drops hyphens and spaces and capitalises the rest in order |
| Engines.LookupInOrder | catalog/services/engines.py:46-79 | ends though its list grows; asks along the effective order up to the first result, or all of it when there is none; one attempt per call |
| Engines.RegionHasEngines | catalog/services/engines.py:29-34 | a region has at least one engine, all known, all the known ones configured |
| Engines.RegionDefault | catalog/services/engines.py:29-34 | the valid ones of those configured, and Google alone when there is none |
| Engines.OrderOfEngines | catalog/services/engines.py:37-43 | a named allowed engine alone, else the allowed ones in the order of the fallback |
| Engines.WhoIsAskedFirst | catalog/services/engines.py:14-20 | Google, then the registry, then Open Library by ISBN; Google, then Open Library by keyword |
| Engines.HandsOverExactly | catalog/services/engines.py:62-69 | Open Library comes last exactly after a rate limit, when allowed and not in the order already |
| Engines.AttemptTells | catalog/services/engines.py:70-74 | what each attempt reports |
| Engines.AskedOnce | catalog/services/engines.py:46-79 | no engine twice |
| Engines.OnlyAllowedAsked | catalog/services/engines.py:37-79 | only allowed engines, each once, whatever is requested or answered |
| Engines.NobodyAsked | catalog/services/engines.py:37-43 | no engine is asked exactly when the region allows none of the fallback and the caller named none it allows |
| Engines.FallbackOrders | catalog/services/engines.py:14-20 | both fallback orders name each engine once; a region with the ISBN registry alone answers ISBN lookups and no keyword search |
| Engines.GoogleHandsOver | catalog/services/engines.py:62-69 | a named Google that is rate limited hands over to Open Library where allowed |

## Left out

- RefreshRuns.FamiliesKept: assumes no step removes, or lets expire, a row some request is rotating; `FamiliesKeptByStep` has the exact condition for one step.
- RefreshRuns.ReplayEndsChain: requires that no rotation of the chain is in flight when the replay begins.
- RefreshSequential.AtMostOneLiveToken: a store call that fails has no effect; a call that took effect but whose answer was lost is not modelled.
- PurgeRuns.PurgeChangesNoRequest: assumes that no rotation is marked on a row that is there but has expired; a purge removes such a row, and the mark re-creates it without its family.
- MigratingStore.MigrationRefinesOneMap: within one token lifetime, with the cache answering, each user's list complete, and chains revoked once they have left the cache; a revocation of all that fails half-way through the list, and a cache entry's own expiry or eviction, are not modelled; the map is that of the live tokens, and `AdoptionKeepsView` covers rotation records.
- MigratingStore.UntimedHonouredOnce: for later rotations of the token into other pairs, which new jtis make them.
- CacheCoherence.NoStaleRead: one generation read, up to three cache calls, is a single step; so is one bump and its row is already visible; a bump inside an open transaction, and generations read as 0 or bumps lost while the cache does not answer, are outside the theorem.
- GenerationCache.GenerationCache.RegionVersionedKey: with the cache answering; `CacheVersion` says what a failure reads as.
- GenerationCache.GenerationCache.InvalidateListingCaches: with the cache answering, likewise.
- GenerationCache.GenerationCache.Read: the seller's private note, read fresh and never stored, is not part of the body.
- BulkImportRuns.ImportIsIdempotent: for files that name each domain once.
- OrderLocks.EveryRunIsSerializable: order updates, platform cancels and seller edits; order creation and listing deletion take no listing lock and are atomic steps of `Marketplace`.
- Throttle.PurgesChangeNothing: for windows of at most a day, which the rates are, and a clock that does not go back.
- MeetupReminders.AtMostOneMail: a worker killed between its mails and its write, and a run that outlives its 15-minute lock, are not modelled.
- BookMerge.Catalogue.UndoMerge: the source has no undo; this is the one its record is documented to allow.
- The admin's free choice of a listing's status, its unlocking, and re-enabling a deleted account: they break the order invariant by design.
- MarketplaceService.MarketplaceService.CreateOrder: whether the parties have chatted and the regions match are parameters, as are the checks on a manual book in `EditListing`; other permission checks are left out.
- Signing and parsing of tokens: a presented token is its jti and user.
- `cancel_reason`, meetup place, photos, audit events, chat notices, push and mail texts: no property here depends on them.
- Characters outside ASCII in codes, domains and ISBNs.
- `get_language`, search, statistics, uploads, one-time tokens, money and rankings: simple beside the above.
- Lock order of listing deletion and of book merges: the cascade takes its rows in another order, so no claim is made.
