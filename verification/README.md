# Verified model of the e-commerce backend

A Dafny model of the parts of the backend that keep state or recurse: the in-memory rate-limit
counter, the tagged cache and the category service on top of it, the verification-code and
account-linking machine of the auth service, the shopping cart with its cache, its scheduler and the
tax report, and the recursive data transforms (key casing, deep merge, nested field selection, the
Luhn check).

Database tables are sequences of rows, Redis is a map whose entries carry an expiry time, every
service call is one atomic step at a time given as a parameter, the clock never goes back, and money
is whole centavos. Objects that the program updates in place are classes; each of their methods is
proved equal to a pure step on the state, and the theorems are about those steps and about runs of
them.

`dafny verify dfyconfig.toml` checks everything.

| file | what it holds |
|---|---|
| `Prelude`, `Lists` | options, rounding up, decimal numerals; keys of ordered objects |
| `Throttler` | the fixed-window counter, its sweep, the sliding-interval bound |
| `TaggedCache` | the cache service, its tag indexes, completeness of invalidation |
| `CategoryTree`, `Categories` | the tree built from parent links; the service and its cached reads |
| `CategoryMeanings` | what each category operation answers, stores and caches, column by column |
| `Usernames`, `Auth`, `AuthAccounts` | the user table, its operations, and what every run keeps |
| `AuthMeanings` | what each account operation accepts, refuses and writes, column by column |
| `AuthRows`, `AuthCodes`, `AuthGuesses`, `AuthResets` | each step seen from one email; histories of codes; the guess bounds for both kinds of code |
| `TaxReport` | tax in centavos, the report that infers the region |
| `CartModel`, `CartService` | the cart's steps; the service, its cache and scheduler as objects |
| `CartMeanings` | what each cart operation accepts, refuses and writes, with limits, times and regions spelled out |
| `CartLines`, `CartRuns`, `CartMerge`, `CartEdits`, `CartPrices` | line bookkeeping; invariants; merging; what edits come to; what lines are charged |
| `CartCoherence`, `CartStale`, `CartWitnesses` | which steps leave the cart cache right; what a stale entry can be and how it heals; runs that end badly |
| `Json`, `CaseKeys`, `DeepMerge`, `FieldSelection`, `Luhn` | the data transforms |

## Where the code does less than one might expect

Each of these is proved, with the exact condition under which the code behaves as wanted.

- A sliding span of one window length lets at most 2L - 1 hits through, not L, and some run reaches
  2L - 1 for every L and window (`SlidingBound`, `SlidingBoundIsSharp`).
- The 60 seconds a tag index lives longer than its entries are exactly enough: one second more
  between two lifetimes used with one tag and an entry outlives its index (`SlackIsExact`). For any
  lifetimes, invalidation misses an entry exactly when the index has lapsed since the entry was set
  (`InvalidationMissesExactly`).
- A dotted field opens its top level key before the path is looked up, so `user.name` on an object
  without a user yields an empty user, and `price.x` turns a number into an empty object
  (`InventedExactly`, `SelectionCanInvent`).
- `update` refuses a category as its own parent but not as a child of its own descendant; it keeps
  the table acyclic exactly when the new parent lies outside the subtree
  (`UpdateKeepsAcyclicExactly`). A cycle makes its categories vanish from the tree (`UpdateCanCloseALoop`).
- `deepMerge` is associative exactly when no key has an object, then something else, then an object
  (`AssociativeExactly`, `AssociativityCanFail`).
- Key casing round trips hold exactly on objects whose keys are already tidy (`CamelUndoesSnakeExactly`,
  `SnakeUndoesCamelExactly`, with inputs in `RoundTripsCanRename` and `RoundTripsCanLoseArrays`).
- The limit of five counts wrong calls of `verifyResetCode` only. A wrong `resetPassword` is not counted
  (`WrongResetLeaves`, `RefusedResetsAreNotCounted`), and a successful one also ends the minute's wait for
  the next code, so the bound on wrong checks grows with the password changes (`CheckBound`).
- Two names in namespaces can share a cache key when a namespace holds a colon (`NamespacesShareExactly`).
- The report's 0.11 threshold misreads a fixed list of subtotals under 50 centavos and no other
  (`ThresholdFailsExactly`); the two buckets are off by exactly the tax on those (`BucketStraysExactly`).
- `clearCart` leaves `shipping`, so the total adds up afterwards exactly when there was none
  (`ClearedAddsUpExactly`, `ClearCanLeaveShipping`).
- Merging re-prices an existing line at today's price but keeps its locked `price`
  (`MergedLineKeepsItsPriceExactly`, `MergeCanMisprice`); nothing else ever charges a line otherwise
  (`MispricedByMerge`).
- Five steps write behind the cart cache: merging an empty guest cart, recalculating at checkout,
  validating, expiring and marking abandoned carts. `StepCoherentForExactly` says exactly when each
  leaves an owner's entry wrong; for each a run shows that it can. A checkout recalculation of a cached
  cart does so in any later millisecond than the cart's last activity (`RecalculateExactly`).
- `addItem` writes to the cart it finds cached and answers with the ACTIVE one. The two are the same
  exactly when nothing else than the ACTIVE cart is cached (`AddAnswersItsCartExactly`); after an expiry
  the item goes to the expired cart and the answer is an empty new one (`ExpiryLosesAnItem`), and no run
  leads to a third case (`AddAfterAnyRun`).
- The scheduler's own specification (src/modules/cart/cart-scheduler.service.spec.ts:123) expects it to
  drop the entries of expired carts, and its comment (src/modules/cart/cart-scheduler.service.ts:96) says
  carts become ABANDONED; the code leaves the cache alone and only sets `abandonedAt`. The model follows
  the code.
- A second merge of the same guest cart changes no row or line exactly when the user has an ACTIVE or
  cached cart by then (`SecondMergeExactly`, `SecondMergeCanAddARow`).

## Model

| member | source | states |
|---|---|---|
| `Throttler.RedisThrottlerStorage.IncrementMemory` | src/common/storage/redis-throttler.storage.ts:137-170 | opens a window at the first hit or after the old one is over, else counts up; the answer and the whole new map |
| `Throttler.RedisThrottlerStorage.Get` | src/common/storage/redis-throttler.storage.ts:176-207 | the in-memory branch: count and rounded-up seconds left, nothing for an expired record |
| `Throttler.RedisThrottlerStorage.CleanupExpiredRecords` | src/common/storage/redis-throttler.storage.ts:213-227 | removes exactly the expired records and counts them |
| `Throttler.HitMeans` | src/common/storage/redis-throttler.storage.ts:137-170 | a hit in a window adds one to its count; any other opens a window that ends one ttl later with count 1; no other record changes |
| `Throttler.AnswerMeans` | src/common/storage/redis-throttler.storage.ts:157-167 | the answer is the count, the least whole seconds no shorter than what is left of the window, and not blocked |
| `Throttler.PeekMeans` | src/common/storage/redis-throttler.storage.ts:198-206 | a read answers the count and the least whole seconds left exactly while the window lasts, and changes nothing |
| `Throttler.SweepMeans` | src/common/storage/redis-throttler.storage.ts:213-227 | a sweep leaves exactly the records of windows that are not over |
| `Throttler.WindowsAreOpenedByHits` | src/common/storage/redis-throttler.storage.ts:137-170 | over any run every window ends one ttl after a hit of the run |
| `Throttler.AlikeRuns` | src/common/storage/redis-throttler.storage.ts:213-227 | storages with the same live records answer any run alike, with or without its sweeps |
| `Throttler.SweepsAreInvisible` | src/common/storage/redis-throttler.storage.ts:213-227 | two runs that differ only in where cleanup ran show every caller the same answers |
| `Throttler.SlidingBound` | src/common/storage/redis-throttler.storage.ts:137-170 | over any run with a fixed ttl, every closed span of that length holds at most 2L - 1 allowed hits |
| `Throttler.SlidingBoundIsSharp` | src/common/storage/redis-throttler.storage.ts:137-170 | for every positive ttl and limit a run reaches that bound |
| `TaggedCache.CacheService.Get` | src/common/services/cache.service.ts:64-87 | the live value under the full key, and one more hit or miss |
| `TaggedCache.CacheService.UpdateStats` | src/common/services/cache.service.ts:355-364 | one more operation and one more hit or miss, and the hit rate in percent that goes with them |
| `TaggedCache.CacheService.Set` | src/common/services/cache.service.ts:96-116 | the value with its ttl, then the tag indexes; nothing when Redis is unavailable |
| `TaggedCache.CacheService.AssociateTags` | src/common/services/cache.service.ts:335-350 | each tag's index gets the key once and lives 60 seconds longer than the entry |
| `TaggedCache.CacheService.Delete` | src/common/services/cache.service.ts:129-147 | removes that key only |
| `TaggedCache.CacheService.InvalidateByTags` | src/common/services/cache.service.ts:154-186 | deletes what each live index lists, then the index, and counts the deletions |
| `TaggedCache.CacheService.ClearAll` | src/common/services/cache.service.ts:274-288 | drops every cache key and every tag key and nothing else |
| `TaggedCache.CacheService.Wrap` | src/common/services/cache.service.ts:297-309 | the cached value if there is one, else the computed one, which is then cached |
| `TaggedCache.SetIsRead` | src/common/services/cache.service.ts:64-116 | a value set is what a read answers for exactly its ttl, unless a later step sets the key again or takes it |
| `TaggedCache.BadTtlStoresNothing` | src/common/services/cache.service.ts:96-116 | a set with a ttl below 0 stores nothing |
| `TaggedCache.StepTakesExactly` | src/common/services/cache.service.ts:129-288 | an entry goes exactly by a delete of its key, an invalidation of a tag whose live index lists it, or a clear, and changes only by a set of its key |
| `TaggedCache.DeleteAndClearMean` | src/common/services/cache.service.ts:129-288 | a delete takes its key, a clear every key under the cache and tag prefixes, letter by letter; all else stays as it was |
| `TaggedCache.CountMeans` | src/common/services/cache.service.ts:154-186 | the count an invalidation returns grows, tag by tag, by the number of keys listed when the tag's turn comes |
| `TaggedCache.TaggedMeans` | src/common/services/cache.service.ts:154-175 | what a tag lists at a time: the members of its index while that lives, else nothing |
| `TaggedCache.FullKeysSpelled` | src/common/services/cache.service.ts:318-330 | the full keys letter by letter |
| `TaggedCache.KeysAreApart` | src/common/services/cache.service.ts:318-330 | no string is both a cache key and a tag key |
| `TaggedCache.KeysAreInjective` | src/common/services/cache.service.ts:318-330 | without namespaces different names give different full keys; so do different tags |
| `TaggedCache.NamespaceSpelledOut` | src/common/services/cache.service.ts:318-323 | a name in a namespace shares its full key with exactly the plain name that spells the namespace out |
| `TaggedCache.NamespacesShareExactly` | src/common/services/cache.service.ts:318-323 | exactly when two names in namespaces share a full key; never when no namespace holds a colon |
| `TaggedCache.SetBacks` | src/common/services/cache.service.ts:96-116 | after a set the entry is live for its ttl and every one of its tags has a live index that lists it for as long |
| `TaggedCache.SetKeepsOthers` | src/common/services/cache.service.ts:335-350 | a set leaves another entry and its listing alone if that entry ends within 60 seconds of the new index's start |
| `TaggedCache.InvalidatedRemoves` | src/common/services/cache.service.ts:154-175 | a listed entry does not survive the invalidation of its tag; under other tags it goes or stays listed |
| `TaggedCache.InvalidationSparesOthers` | src/common/services/cache.service.ts:154-175 | an entry no index of these tags lists stays as it was |
| `TaggedCache.HistoryKeeps` | src/common/services/cache.service.ts:335-350 | every history of sets, deletes, invalidations and clears keeps live tagged entries listed, if the ttls used with the tag differ by at most 60 seconds |
| `TaggedCache.LiveEntriesAreListed` | src/common/services/cache.service.ts:335-350 | then each live entry that carries a tag is listed by the tag's live index |
| `TaggedCache.InvalidationIsComplete` | src/common/services/cache.service.ts:154-175 | then invalidating a tag leaves no live entry that carries it |
| `TaggedCache.SlackIsExact` | src/common/services/cache.service.ts:347-348 | with ttls more than 60 seconds apart two sets suffice for an entry to survive invalidation |
| `TaggedCache.ListedExactly` | src/common/services/cache.service.ts:335-350 | whatever the ttls, an entry that was not taken away is listed under a tag of its last set exactly when the tag's index has not lapsed since that set |
| `TaggedCache.InvalidatedExactly` | src/common/services/cache.service.ts:154-175 | an invalidation takes away exactly what a live index of one of its tags lists |
| `TaggedCache.InvalidationMissesExactly` | src/common/services/cache.service.ts:154-175 | so invalidating a tag misses a live entry that carries it exactly when the index has lapsed |
| `CategoryTree.BuildTree` | src/modules/categories/categories.service.ts:162-169 | terminates for every parent column over distinct ids, cyclic ones included; at every depth the nodes are the rows under that parent, in list order |
| `CategoryTree.EachRootedCategoryOnce` | src/modules/categories/categories.service.ts:162-171 | a category occurs exactly once if its chain of parents in the list reaches null, otherwise not at all |
| `CategoryTree.TreeIsTheMirror` | src/modules/categories/categories.service.ts:162-171 | the tree is the only forest whose levels are the rows under each parent, in list order |
| `CategoryTree.ActiveRowsAreRight` | src/modules/categories/categories.service.ts:156-159 | the fetched list is sorted by order then name and is a permutation of the active rows |
| `CategoryMeanings.LevelIsInOrder` | src/modules/categories/categories.service.ts:162-169 | the rows under a parent are those at the places that name it, each once and in table order |
| `CategoryTree.ReparentKeepsAcyclic` | src/modules/categories/categories.service.ts:255-275 | one changed parent keeps the relation acyclic exactly when the new parent is outside the moved subtree |
| `CategoryTree.UprootKeepsAcyclic` | src/modules/categories/categories.service.ts:255-275 | clearing one parent keeps it acyclic |
| `CategoryTree.AcyclicMeansRooted` | src/modules/categories/categories.service.ts:162-171 | with existing parents, acyclic exactly means that every category's ancestors reach null |
| `Categories.CategoriesService.Create` | src/modules/categories/categories.service.ts:102-142 | refusals in order, the new row, and the invalidation of the shared tag |
| `Categories.CategoriesService.GetCategoryTree` | src/modules/categories/categories.service.ts:148-180 | the cached tree, else a fresh one, cached under both tags |
| `Categories.CategoriesService.FindOne` | src/modules/categories/categories.service.ts:186-227 | the cached category with parent and children, else a fresh one, cached |
| `Categories.CategoriesService.Update` | src/modules/categories/categories.service.ts:233-302 | refusals in order, the patched row, and the invalidation |
| `Categories.CategoriesService.Remove` | src/modules/categories/categories.service.ts:308-342 | refuses a category with children, else deactivates it and invalidates |
| `CategoryMeanings.FreshReadMeans` | src/modules/categories/categories.service.ts:186-213 | an uncached read is not found exactly when no row has the id; else it answers that row, its parent by id, name and slug, and its children, each once and in table order, by id, name, slug and image |
| `CategoryMeanings.CachedReadMeans` | src/modules/categories/categories.service.ts:148-192 | a live entry is what a read answers, and the cache stays |
| `CategoryMeanings.ReadIsCached` | src/modules/categories/categories.service.ts:221-224 | an uncached read is stored for ten minutes and listed under the tags that invalidate it |
| `CategoryMeanings.CreateMeans` | src/modules/categories/categories.service.ts:102-136 | a create goes through exactly when slug and id are free and the parent is there; every column of the new row |
| `CategoryMeanings.UpdateMeans` | src/modules/categories/categories.service.ts:276-290 | every column after an accepted update, and no other row changed |
| `CategoryMeanings.UpdateRefusedExactly` | src/modules/categories/categories.service.ts:233-275 | which updates are refused, and for which reason first |
| `CategoryMeanings.RemoveMeans` | src/modules/categories/categories.service.ts:308-331 | a remove goes through exactly for a row that is nobody's parent; it clears the active flag and nothing else |
| `CategoryMeanings.WriteInvalidates` | src/modules/categories/categories.service.ts:294-299 | a write that goes through takes out exactly the entries a live index of its tags lists, one refused takes none |
| `Categories.CreateKeepsSound` | src/modules/categories/categories.service.ts:115-136 | create keeps ids and slugs unique and parents existing |
| `Categories.UpdateKeepsSound` | src/modules/categories/categories.service.ts:233-290 | update keeps ids and slugs unique and parents existing |
| `Categories.RemoveKeepsSound` | src/modules/categories/categories.service.ts:308-331 | remove keeps ids and slugs unique and parents existing |
| `Categories.CreateKeepsAcyclic` | src/modules/categories/categories.service.ts:115-136 | create keeps the parent relation acyclic |
| `Categories.UpdateKeepsAcyclicExactly` | src/modules/categories/categories.service.ts:255-275 | an accepted update keeps it acyclic exactly when the new parent is outside the moved subtree |
| `Categories.UpdateCanCloseALoop` | src/modules/categories/categories.service.ts:255-275 | a category moved under its child is accepted, and both vanish from the tree |
| `Categories.RemoveKeepsAcyclic` | src/modules/categories/categories.service.ts:308-331 | remove keeps it acyclic |
| `Categories.RemoveTakesOneNode` | src/modules/categories/categories.service.ts:321-331 | remove takes exactly that one node out of the tree |
| `Categories.StepStaysCoherent` | src/modules/categories/categories.service.ts:294-299 | every step keeps each live tree and category entry equal to a fresh read, and listed under the shared tag |
| `Categories.CachedReadsAreFresh` | src/modules/categories/categories.service.ts:148-227 | over any run of creates, updates, removes, reads and neighbours' cache traffic every cached read answers what a fresh read would |
| `Usernames.FindFreeUsername` | src/modules/auth/auth.service.ts:2050-2062 | the counter loop ends and finds the free name |
| `Usernames.OneLess` | src/modules/auth/auth.service.ts:2058-2062 | each taken candidate uses up one of finitely many taken names |
| `Usernames.FreeUsernameIsFresh` | src/modules/auth/auth.service.ts:2050-2062 | the name is free and every candidate before it was taken |
| `Usernames.CandidateMeans` | src/modules/auth/auth.service.ts:2055-2062 | the candidates are the base itself, then the base followed by 1, 2, 3 and so on without leading zeros |
| `Usernames.BaseOfOne` | src/modules/auth/auth.service.ts:2051-2054 | before the @ a small letter or digit stays, a capital becomes its small letter, anything else is dropped |
| `Usernames.BaseJoins` | src/modules/auth/auth.service.ts:2051-2054 | characters before the @ contribute one after another |
| `Usernames.BaseEndsAtSign` | src/modules/auth/auth.service.ts:2051-2054 | what follows the @ contributes nothing |
| `Auth.AuthService.Register` | src/modules/auth/auth.service.ts:723-966 | conflict on email or username, else one new unverified row with code and token |
| `Auth.AuthService.VerifyEmail` | src/modules/auth/auth.service.ts:968-1025 | the whole table after a token verification |
| `Auth.AuthService.VerifyEmailWithCode` | src/modules/auth/auth.service.ts:1036-1152 | the whole table after a guess: counted, refused, or accepted and used up |
| `Auth.AuthService.ResendVerificationCode` | src/modules/auth/auth.service.ts:1160-1271 | a new code at most once a minute for an unverified email |
| `Auth.AuthService.ResendVerificationEmail` | src/modules/auth/auth.service.ts:1276-1387 | the same table change as the resend by code |
| `Auth.AuthService.ForgotPassword` | src/modules/auth/auth.service.ts:1403-1497 | a new reset code at most once a minute |
| `Auth.AuthService.VerifyResetCode` | src/modules/auth/auth.service.ts:1504-1564 | the whole table after a check: a wrong code is counted, a good one changes nothing |
| `Auth.AuthService.ResetPassword` | src/modules/auth/auth.service.ts:1571-1650 | the new password with the code used up, or a refusal |
| `Auth.AuthService.FindOrCreateOAuthUser` | src/modules/auth/auth.service.ts:1993-2087 | found by provider id, else linked by email, else created with a free username |
| `Auth.AuthService.LinkGoogleAccount` | src/modules/auth/auth.service.ts:2095-2141 | conflict when another account has the id, else linked |
| `Auth.AuthService.LinkFacebookAccount` | src/modules/auth/auth.service.ts:2149-2195 | conflict when another account has the id, else linked |
| `Auth.AuthService.UnlinkSocialAccount` | src/modules/auth/auth.service.ts:2204-2251 | refuses an unlinked provider and the last way to sign in, else unlinks |
| `AuthMeanings.RegisterMeans` | src/modules/auth/auth.service.ts:723-966 | a registration goes through exactly when email and username are free; the row holds what was given, unverified, with a fresh code |
| `AuthMeanings.TokenMeans` | src/modules/auth/auth.service.ts:968-1025 | a token verifies the unverified row that holds it for 24 hours, and is used up |
| `AuthMeanings.VerifyMeans` | src/modules/auth/auth.service.ts:1036-1152 | a guess: which are accepted, which counted, which refused and for what, and the row after it |
| `AuthMeanings.ResendMeans` | src/modules/auth/auth.service.ts:1160-1271 | a new code for ten minutes at most once in 60 seconds, for an unverified email only |
| `AuthMeanings.ForgotMeans` | src/modules/auth/auth.service.ts:1403-1497 | a new reset code for ten minutes at most once in 60 seconds |
| `AuthMeanings.CheckMeans` | src/modules/auth/auth.service.ts:1504-1564 | a matching code is answered by used, expired, locked or good and changes nothing; a wrong one counts, the fifth says so |
| `AuthMeanings.ResetMeans` | src/modules/auth/auth.service.ts:1571-1650 | a good code stores the password and is used up; any other changes nothing |
| `AuthMeanings.SignInById` | src/modules/auth/auth.service.ts:2004-2017 | a profile whose provider id a row has reaches that row and changes nothing |
| `AuthMeanings.SignInByEmail` | src/modules/auth/auth.service.ts:2019-2045 | else a row with its email gets id and provider, is verified exactly when it was or the profile is, and keeps password, codes and all else |
| `AuthMeanings.SignInNew` | src/modules/auth/auth.service.ts:2047-2087 | else a new row, verified exactly when the profile is, without password or codes |
| `AuthMeanings.SignInNames` | src/modules/auth/auth.service.ts:2051-2062 | the new row's username is the first of base, base1, base2 and so on that no row has |
| `AuthMeanings.LinkMeans` | src/modules/auth/auth.service.ts:2095-2195 | a link goes through exactly when the user is there and no other has the id; it adds id and provider and nothing else |
| `AuthMeanings.UnlinkMeans` | src/modules/auth/auth.service.ts:2204-2251 | an unlink goes through exactly for a listed provider with a password or another provider left; it clears id and entry |
| `AuthAccounts.StepKeepsAccounts` | src/modules/auth/auth.service.ts:1993-2251 | every step keeps provider ids, emails and usernames unique, exactly the listed providers with an id, a way to sign in; no account loses email, username, password or verification |
| `AuthAccounts.RunKeepsAccounts` | src/modules/auth/auth.service.ts:1993-2251 | so does every run |
| `AuthAccounts.NewUsernameIsFresh` | src/modules/auth/auth.service.ts:2050-2084 | in every reachable table a new OAuth account gets a username nobody has |
| `AuthAccounts.LinkedThenSignedIn` | src/modules/auth/auth.service.ts:2095-2141 | after linking, sign-in with that provider id reaches the linked account and changes nothing |
| `AuthAccounts.SignedInAgain` | src/modules/auth/auth.service.ts:1993-2087 | a second sign-in with the same profile reaches the same account and changes nothing |
| `AuthAccounts.UnlinkUndoesLink` | src/modules/auth/auth.service.ts:2204-2251 | unlinking restores the table from before the link |
| `AuthCodes.StepTells` | src/modules/auth/auth.service.ts:1036-1650 | after each step the code columns of an email's row are exactly what the history has issued, guessed and used |
| `AuthCodes.AcceptedExactly` | src/modules/auth/auth.service.ts:1049-1104 | a code is accepted exactly when the email is unverified and it is the last one issued, within 10 minutes and after fewer than 5 wrong guesses |
| `AuthCodes.AcceptedCodeWasIssued` | src/modules/auth/auth.service.ts:1049-1104 | each acceptance in a run points to the step that issued the code, with no newer code and fewer than 5 wrong guesses between |
| `AuthCodes.AcceptedAtMostOnce` | src/modules/auth/auth.service.ts:1094-1104 | no email ever has two codes accepted |
| `AuthCodes.ResetExactly` | src/modules/auth/auth.service.ts:1575-1626 | a reset code works exactly when it is the last one issued and unused, within 10 minutes and after fewer than 5 wrong checks |
| `AuthCodes.ChangedPasswordWasForgotten` | src/modules/auth/auth.service.ts:1575-1626 | each password change in a run points to a forgot-password step of that email at most 10 minutes before |
| `AuthCodes.EachChangeHasItsOwnForgot` | src/modules/auth/auth.service.ts:1421-1451 | two changes never share a forgot-password step |
| `AuthCodes.CheckedThenReset` | src/modules/auth/auth.service.ts:1504-1564 | a good check changes no state, and the code then resets the password exactly within its 10 minutes, whatever else happens, refused resets included, short of a new code, a counted wrong check or a change |
| `AuthGuesses.StepPays` | src/modules/auth/auth.service.ts:1184-1214 | no step adds to the guesses left in a span; a guess that meets an open code takes one |
| `AuthGuesses.GuessBound` | src/modules/auth/auth.service.ts:1036-1104 | any w milliseconds of any run hold at most 5 * (w / 60000 + 2) guesses that meet an unexpired, unlocked code |
| `AuthGuesses.GuessBoundIsSharp` | src/modules/auth/auth.service.ts:1036-1104 | for every w a run reaches that bound |
| `AuthResets.StepPaysForChecks` | src/modules/auth/auth.service.ts:1421-1626 | no step adds to the wrong checks left in a span but a password change, which adds at most four; a wrong check that meets an open reset code takes one |
| `AuthResets.CheckBound` | src/modules/auth/auth.service.ts:1504-1564 | any w milliseconds of any run hold at most 5 * (w / 60000 + 2) wrong checks that meet an open reset code, plus four for each password change in them |
| `AuthResets.WrongResetLeaves` | src/modules/auth/auth.service.ts:1575-1586 | a reset with a code that does not match leaves the whole table alone, the attempts included |
| `AuthResets.RefusedResetsAreNotCounted` | src/modules/auth/auth.service.ts:1575-1586 | so for every n a run meets one open reset code with n refused resets at one instant |
| `TaxReport.RoundHundredth` | src/modules/cart/cart.service.ts:435 | rounds to centavos, halves away from zero |
| `TaxReport.ThresholdRecoversRegion` | src/modules/cart/cart-analytics.controller.ts:369-380 | from 50 centavos up the threshold recovers the rate that was applied |
| `TaxReport.ThresholdFailsExactly` | src/modules/cart/cart-analytics.controller.ts:369-380 | exactly which subtotals are misread |
| `TaxReport.NeverOnTheThreshold` | src/modules/cart/cart-analytics.controller.ts:369-380 | no cart's ratio lies on the threshold itself |
| `TaxReport.GetTaxCollected` | src/modules/cart/cart-analytics.controller.ts:354-380 | each region's count and tax are those of its carts, the two add up to the totals, and the average times the count is the total |
| `TaxReport.BucketStraysExactly` | src/modules/cart/cart-analytics.controller.ts:354-380 | for all carts with some tax a bucket is the tax charged in its region plus what strayed in from the other less what strayed out, strays being the misread subtotals |
| `TaxReport.ReportMatchesCharges` | src/modules/cart/cart-analytics.controller.ts:354-380 | in particular the tax charged in its region when no subtotal is misread |
| `CartService.CartCacheService.GetCart` | src/modules/cart/cart-cache.service.ts:32-52 | the live entry under the owner's key |
| `CartService.CartCacheService.SetCart` | src/modules/cart/cart-cache.service.ts:60-73 | one entry, for 24 hours |
| `CartService.CartCacheService.InvalidateCart` | src/modules/cart/cart-cache.service.ts:80-89 | drops the owner's entry only |
| `CartService.CartService.GetOrCreateCart` | src/modules/cart/cart.service.ts:40-115 | the cached cart, else the ACTIVE one, else a new one, cached |
| `CartService.CartService.AddItem` | src/modules/cart/cart.service.ts:124-225 | tables, cache and answer after an add, refusals included |
| `CartService.CartService.UpdateItem` | src/modules/cart/cart.service.ts:234-298 | tables, cache and answer after an update, refusals included |
| `CartService.CartService.UpdateItemQuantity` | src/modules/cart/cart.service.ts:567-595 | the line at its locked price and new totals |
| `CartService.CartService.RemoveItem` | src/modules/cart/cart.service.ts:305-335 | the line gone, new totals, the owner's entry dropped |
| `CartService.CartService.ClearCart` | src/modules/cart/cart.service.ts:341-360 | the cart's lines gone, all amounts but shipping zero |
| `CartService.CartService.CalculateTotals` | src/modules/cart/cart.service.ts:405-485 | subtotal as the sum of line totals, tax by region, shipping, total |
| `CartService.CartService.ValidateCart` | src/modules/cart/cart.service.ts:509-562 | flags exactly the lines that can no longer be bought; reports stock, quantity and both prices line by line; valid exactly when all can be bought at unchanged prices |
| `CartService.CartService.MergeGuestCart` | src/modules/cart/cart.service.ts:603-789 | tables, cache, answer and counters after a merge in all its branches |
| `CartService.CartSchedulerService.ExpireInactiveCarts` | src/modules/cart/cart-scheduler.service.ts:31-86 | exactly the idle ACTIVE carts become EXPIRED; the counts are those of the idle guest and user carts |
| `CartService.CartSchedulerService.DetectAbandonedCarts` | src/modules/cart/cart-scheduler.service.ts:99-160 | exactly the quiet ACTIVE carts with lines and no mark get one, and their number is returned |
| `CartMeanings.OpenedMeans` | src/modules/cart/cart.service.ts:40-115 | a live entry is answered and nothing changes; else the ACTIVE row, or a new empty one, is answered and cached for 24 hours under the owner's key |
| `CartMeanings.AddAcceptedExactly` | src/modules/cart/cart.service.ts:132-185 | an add is accepted exactly for a product on sale with asked and resulting quantity within the stock and within a limit that is set and not 0 |
| `CartMeanings.AddRefusedFor` | src/modules/cart/cart.service.ts:132-185 | otherwise the first check that fails says why |
| `CartMeanings.UpdateAcceptedExactly` | src/modules/cart/cart.service.ts:240-266 | an update is accepted exactly for a line of the cart with a quantity within the stock and within a limit that is set and not 0; otherwise why not |
| `CartMeanings.DeliveryMeans` | src/modules/cart/cart.service.ts:425-502 | with a delivery 12 percent tax exactly when the region spells NCR, METRO MANILA or NATIONAL CAPITAL somewhere, case aside, else 10 percent; its fee; the total; all else stays |
| `CartMeanings.NoAddressMeans` | src/modules/cart/cart.service.ts:425-480 | without an address 12 percent and no shipping |
| `CartMeanings.ClearedRowMeans` | src/modules/cart/cart.service.ts:341-360 | a clear zeroes subtotal, tax, discount and total, notes the time, and leaves every other column |
| `CartMeanings.ValidationMeans` | src/modules/cart/cart.service.ts:523-539 | a validation takes the flag from exactly the cart's lines that are off sale or short of stock |
| `CartMeanings.CheckReports` | src/modules/cart/cart.service.ts:523-551 | what is reported of a line: its availability, stock, quantity, and both prices exactly when they differ |
| `CartMeanings.ExpiryMeans` | src/modules/cart/cart-scheduler.service.ts:31-86 | ACTIVE carts untouched for 7 days as a guest's, 30 as a user's, become EXPIRED with the time; nothing else changes |
| `CartMeanings.ExpiryCounts` | src/modules/cart/cart-scheduler.service.ts:31-86 | each count is the number of such rows of its kind |
| `CartMeanings.AbandonmentMeans` | src/modules/cart/cart-scheduler.service.ts:99-136 | ACTIVE carts with lines, without a mark, untouched for 3 hours get the mark; nothing else changes |
| `CartMeanings.AbandonmentCounts` | src/modules/cart/cart-scheduler.service.ts:99-160 | the count is the number of such rows |
| `CartRuns.TotalledAddsUp` | src/modules/cart/cart.service.ts:425-480 | after every recalculation total = subtotal + tax + shipping - discount, with the rate of the region |
| `CartRuns.WriteKeeps` | src/modules/cart/cart.service.ts:425-480 | line writes in one cart followed by a recalculation keep all invariants |
| `CartRuns.StepKeeps` | src/modules/cart/cart.service.ts:55-107 | every step keeps one ACTIVE cart per owner, one line per cart and product, subtotals as sums of line totals, totals that add up unless just cleared, owners fixed, MERGED and EXPIRED final |
| `CartRuns.RunKeeps` | src/modules/cart/cart-scheduler.service.ts:43-69 | so does every run from a sound shop |
| `CartRuns.ReachableIsSound` | src/modules/cart/cart.service.ts:55-107 | every state reachable from empty tables is sound |
| `CartRuns.ClearedAddsUpExactly` | src/modules/cart/cart.service.ts:341-360 | after a clear the total adds up exactly when shipping was zero |
| `CartRuns.AddedExactly` | src/modules/cart/cart.service.ts:145-211 | an add goes through exactly when the product is on sale and asked and resulting quantities are within stock and limit; the line then has the resulting one |
| `CartRuns.UpdatedExactly` | src/modules/cart/cart.service.ts:240-269 | an update goes through exactly when the line is the cart's and the quantity within stock and limit; no other line changes |
| `CartEdits.AddAnswersItsCartExactly` | src/modules/cart/cart.service.ts:124-225 | an accepted add answers with the cart it wrote to exactly when nothing is cached for the owner or the ACTIVE cart is |
| `CartEdits.AddedMeans` | src/modules/cart/cart.service.ts:160-224 | whatever is cached: one line of the cart the add started from grows at its locked price or starts at today's, every other line stays, that cart's totals follow; the answer is the owner's ACTIVE cart, and if that is another one its lines are what they were, none if it is new |
| `CartEdits.AddFromCoherent` | src/modules/cart/cart.service.ts:124-225 | with a current entry or none the cart written to is the one answered |
| `CartEdits.AddBehindExpiry` | src/modules/cart/cart.service.ts:124-225 | with a cached cart and no ACTIVE one the line goes to the old cart and the answer is a new, empty one |
| `CartEdits.AddAfterAnyRun` | src/modules/cart/cart.service.ts:124-225 | after any run there is no third case: the cart written to is answered if nothing is cached or the cached cart is ACTIVE, else a new, empty one |
| `CartEdits.UpdatedMeans` | src/modules/cart/cart.service.ts:268-297 | one line gets the quantity at its locked price and discount, every other stays, the totals follow, the answer is the cart as it then is |
| `CartEdits.RemovedMeans` | src/modules/cart/cart.service.ts:305-335 | a remove goes through exactly when the line is the cart's; then that line is gone, every other stays, the totals follow |
| `CartEdits.ClearedMeans` | src/modules/cart/cart.service.ts:341-360 | the cart has no lines and no total, every other cart keeps row and lines |
| `CartMerge.MergeFormula` | src/modules/cart/cart.service.ts:684-765 | the loop gives each product min(u + g, limit, stock) if the user had it, the guest's line if new, active and in stock, else nothing; other products stay |
| `CartMerge.MergeMeans` | src/modules/cart/cart.service.ts:645-788 | the same for the whole operation, with the guest cart MERGED, the user's cart ACTIVE and adding up, all other carts and lines untouched |
| `CartMeanings.MergedQuantityMeans` | src/modules/cart/cart.service.ts:696-713 | a product both carts held: at most the sum, the stock and a limit that is set and not 0, and one of the three; at today's price, all else of the line as it was |
| `CartMeanings.CopiedLineMeans` | src/modules/cart/cart.service.ts:719-754 | a product only the guest held is copied as it is exactly when on sale and in stock for its quantity |
| `CartMeanings.OtherLinesStay` | src/modules/cart/cart.service.ts:684-765 | a product the guest did not hold stays as the user held it |
| `CartMeanings.NothingToMerge` | src/modules/cart/cart.service.ts:611-630 | without a guest cart nothing is counted as added, merged or skipped |
| `CartMeanings.GuestRowMeans` | src/modules/cart/cart.service.ts:768-774 | the guest's row is MERGED with the time and otherwise as it was |
| `CartMerge.CountersAreRight` | src/modules/cart/cart.service.ts:678-765 | each counter counts the guest lines that the tables before the merge destine for it |
| `CartMerge.MergeCountersMean` | src/modules/cart/cart.service.ts:678-765 | added, merged and skipped come to the guest's line count |
| `CartMerge.MergedLineKeepsItsPriceExactly` | src/modules/cart/cart.service.ts:700-713 | a merged line is priced at its own price exactly when that is today's price or its quantity is zero |
| `CartPrices.StepExplains` | src/modules/cart/cart.service.ts:190-202 | after any step each line is as it was, is charged at its own price without discount, or was written by a merge at another price |
| `CartPrices.RunKeepsPricing` | src/modules/cart/cart.service.ts:581-592 | over any run no line has a discount and every line of a guest cart is charged at its own price |
| `CartPrices.MispricedByMerge` | src/modules/cart/cart.service.ts:700-713 | after any run a line not charged at its own price was last written by a merge when the product had another price |
| `CartPrices.WithoutMergesPriced` | src/modules/cart/cart.service.ts:190-202 | after a run without merges every line has subtotal = price * quantity and total = subtotal |
| `CartMerge.SecondMergeExactly` | src/modules/cart/cart.service.ts:611-643 | a second merge leaves lines alone, and rows exactly when the user has an ACTIVE or cached cart |
| `CartMerge.SecondMergeChangesNothing` | src/modules/cart/cart.service.ts:603-789 | it changes nothing after a non-empty merge, or when the user's cached cart was not stale |
| `CartCoherence.CachedReadIsFresh` | src/modules/cart/cart.service.ts:48-53 | when an owner's entry is coherent, a cached read is the owner's ACTIVE row and lines |
| `CartCoherence.KeysApart` | src/modules/cart/cart-cache.service.ts:16-24 | two owners never share a cache key |
| `CartCoherence.RecalculateExactly` | src/modules/cart/cart.service.ts:471-480 | a recalculation leaves an owner's entry right exactly when the cart is not the one cached or its row has these totals already, last activity included |
| `CartCoherence.ValidateExactly` | src/modules/cart/cart.service.ts:530-539 | a validation does exactly when the cart is not the one cached or no line is newly flagged |
| `CartCoherence.ExpireExactly` | src/modules/cart/cart-scheduler.service.ts:43-75 | expiry does exactly when the cart cached for the owner is not idle |
| `CartCoherence.AbandonExactly` | src/modules/cart/cart-scheduler.service.ts:124-136 | marking abandoned carts does exactly when the cart cached for the owner does not get the mark |
| `CartCoherence.MergedExactly` | src/modules/cart/cart.service.ts:632-643 | a merge does exactly unless the owner is the guest and the guest's cart is empty and cached |
| `CartCoherence.StepCoherentForExactly` | src/modules/cart/cart.service.ts:220-224 | owner by owner, whatever is cached for others: get, add, update, remove and clear keep the entry right; every other step exactly when it is safe for that owner, which can be told before the call |
| `CartCoherence.StepCoherentExactly` | src/modules/cart/cart.service.ts:220-224 | from a cache right for everyone a step leaves it so exactly when it is safe for everyone |
| `CartCoherence.SafeRunsAreCoherent` | src/modules/cart/cart-cache.service.ts:32-89 | over any safe run whatever the cache holds for an owner is that owner's ACTIVE cart row and lines |
| `CartCoherence.SafeRunsFromEmpty` | src/modules/cart/cart-cache.service.ts:32-89 | in particular over any safe run from empty tables |
| `CartCoherence.PlainRunsAreSafe` | src/modules/cart/cart.service.ts:220-224 | runs of get, add, update, remove, clear, catalogue changes and merges of guest carts with lines are safe runs |
| `CartStale.StepFiled` | src/modules/cart/cart.service.ts:55-107 | every step keeps: only an owner's newest cart can be ACTIVE, and the cache holds the owner's newest cart or nothing |
| `CartStale.ReachableIsFiled` | src/modules/cart/cart.service.ts:55-107 | so in every state reachable from empty tables |
| `CartStale.StaleMeansNone` | src/modules/cart/cart.service.ts:48-59 | then a cached cart that is not the owner's ACTIVE one means that there is no ACTIVE one |
| `CartStale.RenewedIsCoherent` | src/modules/cart/cart.service.ts:109-114 | whatever was cached before, an entry a step fills is right |
| `CartStale.SafeSinceIsCoherent` | src/modules/cart/cart-cache.service.ts:32-89 | an owner's entry is right after any run in which no step unsafe for that owner came since the entry was last dropped or filled |
| `CartWitnesses.ExpiryLosesAnItem` | src/modules/cart/cart-scheduler.service.ts:43-75 | a run that expires a cached cart; an item then added is in the expired cart and not in the answer |
| `CartWitnesses.MergeCanGoStale` | src/modules/cart/cart.service.ts:632-643 | a run whose empty merge leaves a stale entry |
| `CartWitnesses.RecalculationCanGoStale` | src/modules/cart/cart.service.ts:471-480 | a recalculation one millisecond after an add leaves a stale entry |
| `CartWitnesses.AbandonmentCanGoStale` | src/modules/cart/cart-scheduler.service.ts:124-136 | a run whose abandonment mark leaves a stale entry |
| `CartWitnesses.ValidationCanGoStale` | src/modules/cart/cart.service.ts:530-539 | a run whose validation leaves a stale entry |
| `CartWitnesses.SecondMergeCanAddARow` | src/modules/cart/cart.service.ts:626-643 | a run in which a second merge opens a new cart |
| `CartWitnesses.ClearCanLeaveShipping` | src/modules/cart/cart.service.ts:347-356 | a run whose clear leaves shipping 100 and total 0 |
| `CartWitnesses.MergeCanMisprice` | src/modules/cart/cart.service.ts:700-713 | a run that charges two units at a locked price of 100 with 400 |
| `CaseKeys.KeysToCamel` | src/common/utils/transformer.util.ts:109-130 | the object with every key renamed, at every depth |
| `CaseKeys.KeysToSnake` | src/common/utils/transformer.util.ts:138-159 | the object with every key renamed, at every depth |
| `CaseKeys.SnakeOfOne` | src/common/utils/transformer.util.ts:89-91 | a capital becomes an underscore and its small letter, any other character stays |
| `CaseKeys.SnakeJoins` | src/common/utils/transformer.util.ts:89-91 | names are rewritten character by character |
| `CaseKeys.CamelMeans` | src/common/utils/transformer.util.ts:99-101 | from the left an underscore and a small letter become the capital, anything else stays |
| `CaseKeys.LastOneWins` | src/common/utils/transformer.util.ts:109-159 | the result has exactly the renamed keys; of keys renamed alike the last one's value stands |
| `CaseKeys.CamelAfterSnake` | src/common/utils/transformer.util.ts:89-101 | snakeToCamel undoes camelToSnake on strings without an underscore before a small letter |
| `CaseKeys.SnakeAfterCamel` | src/common/utils/transformer.util.ts:89-101 | camelToSnake undoes snakeToCamel on strings without capitals |
| `CaseKeys.CamelUndoesSnakeExactly` | src/common/utils/transformer.util.ts:109-159 | on nested objects the first round trip is the identity exactly when all keys are of that kind and no array lies directly in an array |
| `CaseKeys.SnakeUndoesCamelExactly` | src/common/utils/transformer.util.ts:109-159 | the same for the second round trip |
| `CaseKeys.RoundTripsCanRename` | src/common/utils/transformer.util.ts:89-101 | the key a_b comes back as aB and the key aB as a_b |
| `CaseKeys.RoundTripsCanLoseArrays` | src/common/utils/transformer.util.ts:119-122 | an empty array in an array comes back as an empty object |
| `DeepMerge.DeepMerge` | src/common/utils/transformer.util.ts:178-202 | the loop computes the merge |
| `DeepMerge.MergedFacts` | src/common/utils/transformer.util.ts:178-202 | keys of the target first, then the new ones; each key holds what the two sides' values combine to |
| `DeepMerge.MergeIsSourceExactly` | src/common/utils/transformer.util.ts:178-202 | a merge is its source exactly when the source covers the target |
| `DeepMerge.Idempotent` | src/common/utils/transformer.util.ts:178-202 | merging an object with itself changes nothing |
| `DeepMerge.TwiceIsOnce` | src/common/utils/transformer.util.ts:178-202 | merging the same source twice is merging it once |
| `DeepMerge.ValuesSurvive` | src/common/utils/transformer.util.ts:178-202 | every non-object value of the source stands at its path; untouched paths of the target stay |
| `DeepMerge.NothingAdded` | src/common/utils/transformer.util.ts:178-202 | whatever stands at a path of a merge stood there in target or source, non-objects unchanged |
| `DeepMerge.AssociativeExactly` | src/common/utils/transformer.util.ts:178-202 | exactly when merging is associative |
| `DeepMerge.AssociativeWithoutGaps` | src/common/utils/transformer.util.ts:178-202 | it is whenever no path has a non-object in the middle between objects in the outer two |
| `DeepMerge.AssociativityCanFail` | src/common/utils/transformer.util.ts:178-202 | an example where it is not |
| `FieldSelection.ValidFieldsAreRight` | src/common/interceptors/field-selection.interceptor.ts:90-115 | the fields kept are requested, allowed and within the limit; under the limit all such fields are kept |
| `FieldSelection.FirstFieldsRemain` | src/common/interceptors/field-selection.interceptor.ts:106-112 | at the limit the fields kept are those of a beginning of the request |
| `FieldSelection.AllowedInOrder` | src/common/interceptors/field-selection.interceptor.ts:96-98 | filtering keeps the order of the request |
| `FieldSelection.SelectTopLevel` | src/common/interceptors/field-selection.interceptor.ts:173-193 | a new object with exactly the requested properties that exist |
| `FieldSelection.SelectNestedFields` | src/common/interceptors/field-selection.interceptor.ts:198-237 | a new object that shows the order-independent selection; every source object is left as it was although sub-objects are shared |
| `FieldSelection.SetNestedValue` | src/common/interceptors/field-selection.interceptor.ts:242-255 | the value and all below it at its path, objects above it, nothing else changed, the source unchanged |
| `FieldSelection.NothingInvented` | src/common/interceptors/field-selection.interceptor.ts:198-237 | every non-object value of a selection has the same path and value in the source |
| `FieldSelection.RequestedArePresent` | src/common/interceptors/field-selection.interceptor.ts:198-237 | every requested path present in the source is in the selection with all below it |
| `FieldSelection.NothingExtra` | src/common/interceptors/field-selection.interceptor.ts:198-237 | below the top level nothing stands but what lies on, above or below a requested path |
| `FieldSelection.TopLevelExactly` | src/common/interceptors/field-selection.interceptor.ts:198-237 | at the top level exactly the keys are there that a present or a dotted request begins with |
| `FieldSelection.PartsAreBetweenDots` | src/common/interceptors/field-selection.interceptor.ts:203-204 | a dotted field is split into what its dots separate |
| `FieldSelection.InventedExactly` | src/common/interceptors/field-selection.interceptor.ts:205-213 | a selection shows what the source does not exactly at a top level key opened by a dotted request where the source has no object, unless the key itself is requested and present |
| `FieldSelection.SelectionCanInvent` | src/common/interceptors/field-selection.interceptor.ts:205-213 | user.name and price.x on an object with only a number as price yield two empty objects |
| `FieldSelection.OrderIsIrrelevant` | src/common/interceptors/field-selection.interceptor.ts:198-237 | order and repetition of the fields play no part |
| `FieldSelection.SelectingTwiceIsOnce` | src/common/interceptors/field-selection.interceptor.ts:198-237 | selecting again with the same fields changes nothing |
| `Luhn.IsCreditCard` | src/common/utils/validator.util.ts:178-203 | true exactly for 13 to 19 digits whose positional Luhn sum is a multiple of ten |
| `Luhn.LuhnSumMeans` | src/common/utils/validator.util.ts:178-203 | a digit with an even number after it counts itself, any other the digits of its double |
| `Luhn.SanitizedMeans` | src/common/utils/validator.util.ts:178-203 | every digit of the text is kept with its value, any other character dropped |
| `Luhn.CatchesSingleErrors` | src/common/utils/validator.util.ts:178-203 | in a valid number of any length changing one digit is always caught |
| `Luhn.CatchesSwapsExceptZeroNine` | src/common/utils/validator.util.ts:178-203 | swapping adjacent digits is caught exactly unless they are equal or 0 and 9 |
| `Luhn.OneCheckDigit` | src/common/utils/validator.util.ts:178-203 | every payload has exactly one digit that completes it |

## Left out

- The Redis branch of the throttler and the guard in front of it; a hit counts as allowed when its count is within the limit.
- `CacheService.invalidateByPattern`, `exists` and `getTTL`.
- TaggedCache.CacheService.Wrap: the computed function is a value without effects; it is not awaited.
- Redis, database and network failures, concurrent calls, logging, metrics and tracing.
- CategoriesService.findAll, getChildren and getCategoryProducts; names are ordered character by character, not by a database collation; `create` never sets the sort order.
- Requests of other services to the shared cache are covered only when they use the `categories` tag with lifetimes of at least 540 seconds and no category key.
- Usernames.BaseUsername: lower-cases ASCII letters only; the region of a delivery is upper-cased likewise.
- Categories.CategoriesService.Create: the parent row and children that the reply joins in; so for an update.
- Auth: Clerk, its webhooks and `syncGoogleUser`, the random username suffix after a Clerk conflict, JWTs, password hashing, emails; names and pictures of users. Codes, tokens and hashes are inputs.
- Auth.AuthService.LinkGoogleAccount: the provider's token is taken as validated; the result is its id.
- Cart requests with both a user and a session, or with neither: each request has exactly one owner key.
- CartService.CartService.UpdateItemQuantity: takes the position of the line its caller has found, not the id it would look up again.
- Cart snapshots, customization, original prices, the product join of responses and row timestamps other than the last activity.
- The shipping price tables: the fee for a delivery is an input of the recalculation.
- Carts completed by an order, whose service is not part of this model; statuses are ACTIVE, MERGED and EXPIRED.
- CartService.CartSchedulerService.ExpireInactiveCarts: a day is 24 hours whatever the clock change.
- CartService.CartService.ValidateCart: the text of the reason a flagged line is given.
- TaxReport.GetTaxCollected: sums whole centavos where the report sums floating-point numbers, takes the carts the date and status filter has found, and does not round the average for display.
- CaseKeys.KeysToCamel: works on JSON values; one loop serves both directions, and keys that look like array indexes keep their place in the order.
- DeepMerge.DeepMerge: objects are JSON objects, so no property is inherited from a prototype.
- FieldSelection.SelectNestedFields: property lookup sees own properties only.
- Field selection on arrays and paginated responses, which treats item after item in the same way.
- The regex validators, role tables, order status table and sanitizing pipelines, each settled by reading one branch or a table.
