# Keydock: a verified model of the TTL store, its sweeper and its access control

Keydock is a bucketed key-value service. Entries can expire; a background sweeper removes expired
entries by way of an index ordered by expiry; writers are serialized by 64 striped locks; buckets
carry policies, and administrators mint temporary signed tokens. This project states what those parts
guarantee together and proves it in Dafny 4.11. `dafny verify dfyconfig.toml` checks everything.

## What is proved, in short

1. **Any interleaving looks serial, and unswept up to an exact condition.** Whatever the schedule of
   writers (set, delete, increment, multi-key batch), lock-free readers and listings, and sweepers on
   stale index snapshots, every answer is that of the same operations run one at a time in commit
   order (`Concurrency.Serializable`). Answer by answer it is also the one given with no sweeper at
   all, except exactly where the client *notices*: never for a get or an increment, for a delete of an
   entry that has been taken, and for a listing with a taken entry before the end of its page
   (`Concurrency.ConcurrentAnswers`, on top of `Unswept.SweeperUnobservable`). Each finished operation
   is in the order exactly once (`Ledger.EachOperationLoggedOnce`), and concurrent integer increments
   add up, with or without expiries (`Ledger.ConcurrentIncrementsAddUp`).
2. **The sweeper is safe and complete.** It only takes entries that are due; every expiring entry stays
   reachable from the index; one uninterrupted sweep with its early break leaves exactly the unexpired
   entries (`Sweep.SweepExact`, over the byte order proved in `Layout.ExpiryIndexKeyOrder`), and whatever
   was due at the snapshot of a sweep among other threads is gone or written again when that sweep is
   done (`Thorough.OnlySweeperIsComplete`).
3. **The locks cannot deadlock and every schedule ends** (`Progress`).
4. **All four listing loops compute one specification**, and scoped listings show exactly the
   intersection of scope, request and unexpired keys.
5. **Credentials are good for what they are, and tokens for what was asked.** Secret, write and read
   keys and tokens pass exactly their own checks (`Lifecycle.CredentialRights`); a token grants on a key
   what its form named, under the form's prefix, until its TTL is over or the signing key has changed,
   over every run of handler calls (`Lifecycle.TokenGrants`, `Lifecycle.TokenLife`). Patches reach
   exactly the fields they name; policies keep their flags, their secret key, and, without a secret
   key, everything.
6. **What is written is read back**: the request's own bytes, with the kind they spell, exactly for the
   TTL asked for, through single-key requests and transactions (`KeyRoutes.PutKey`, `Txn.ExecuteTxn`,
   `Numbers.KindOfBody`).

## How the model is laid out

| file | models |
|---|---|
| `Bytes.dfy` | byte order, ordered keyspace iteration |
| `Layout.dfy` | storage keys and expiry-index keys (`repos.rs`) |
| `Counter.dfy`, `Numbers.dfy` | value kinds, decimal integers, counter arithmetic, kind inference; which texts are numbers, exactly |
| `StoreSpec.dfy` | instants and TTL; each repository operation as a function on the two keyspaces |
| `Listing.dfy`, `Sweep.dfy` | the listing and sweeping specifications |
| `FjallStore.dfy` | the adapter as a class, with the real loops, tied to those specifications |
| `Runs.dfy` | serial runs, timing, bucket isolation, lifetimes |
| `Unswept.dfy` | a run beside the same run without sweeping: what is missing, and who can tell |
| `CounterRuns.dfy` | counters in the store over runs with other writers, expiry and sweeping |
| `Locks.dfy`, `Concurrency.dfy`, `Ledger.dfy`, `Progress.dfy` | threads, steps, invariant, accounting, liveness |
| `Thorough.dfy`, `Race.dfy` | sweep completeness among other threads; a listing that notices a sweep |
| `Tokens.dfy`, `Access.dfy` | base64url, tokens, credentials, permission checks and lists, policy lifecycle |
| `Handlers.dfy` | bucket listing, single-key requests and the transaction endpoint |

Assumptions. A batch commit and a single insert or remove of the storage engine are atomic, and a
batch applies in order; iteration is over a snapshot in byte order; storage calls succeed and mutexes
are not poisoned. The stripe function is arbitrary into 0..63. The keyed hash (section 2 of RFC 2104)
is any function. The JSON and postcard codecs lose none of their fields. Float parsing, printing and
addition, UTF-8 validity and JSON validity are parameters (`Values.Host`); the concurrency results
hold for any counter rule (`Counter.Merger`) and are instantiated with the real one. Instants are
nanoseconds in the range of the `time` crate. The signing-key generation is a 64-bit counter that
wraps, as in a release build.

Three properties one might expect do not hold of the code as it is; each has its witness and its exact
condition.

- *A delete's answer does not depend on the sweeper.* It reports raw presence, so setting, sweeping and
  deleting a key answers 404 where the unswept run answers 204 (`Unswept.DeleteTellsOfSweep`). The two
  differ exactly when a sweep step has found the entry due since it was last written, and then the
  entry already reads as missing at the deleter's clock (`Unswept.DeleteAnswer`, `Unswept.TakenMeans`).
- *A listing does not depend on the sweeper.* It reads its clock before it scans, so an entry that
  expires and is swept in between is not shown (`Race.ListingCanNoticeSweep`). A listing of any order
  and page notices exactly when a taken entry stands before the end of a page that shows something
  (`Listing.ListNoticesMissing`, lifted by `Unswept.AnswerDiffersIfNoticed` and
  `Concurrency.ConcurrentAnswers`), and only for an entry that expired after the listing read its
  clock (`Unswept.ListNoticesBetween`). Where operations happen at once by a clock that does not run
  backwards it cannot occur (`Unswept.ClockOrderedRunsLookUnswept`).
- *A token dies for good at the first change of the signing key.* The 64-bit generation wraps:
  `Lifecycle.TokenLifeExact` is the exact condition, `Lifecycle.FlipsReviveTokenAtWrap` the runs that
  revive a token, `Lifecycle.TokenLife` the usual case of fewer than 2^64 calls.

## Model

| member | source | states |
|---|---|---|
| `Keyspaces.SortedAscends` | crates/keydock-fjall/src/gc.rs:77 | iteration yields each key of the snapshot once, strictly ascending in byte order |
| `Layout.UserKeyInverse` | crates/keydock-fjall/src/repos.rs:14-40 | parsing the user key is the exact inverse of building the storage key, for keys of at most 128 bytes |
| `Layout.StorageKeyInjective` | crates/keydock-fjall/src/repos.rs:13-20 | for bucket ids without ':' the storage key determines bucket and key |
| `Layout.StorageKeyOrder` | crates/keydock-fjall/src/repos.rs:14-20 | within a bucket, storage keys are ordered as user keys |
| `Layout.PrefixScanExact` | crates/keydock-fjall/src/repos.rs:22-32 | a prefix scan meets exactly the bucket's keys with the user prefix |
| `Layout.OrderedI64RoundTrip` | crates/keydock-fjall/src/repos.rs:94-102 | decoding undoes encoding for every i64 |
| `Layout.OrderedI64Canonical` | crates/keydock-fjall/src/repos.rs:94-102 | encoding undoes decoding for every eight bytes |
| `Layout.OrderedI64Order` | crates/keydock-fjall/src/repos.rs:94-97 | byte order of the encoding is integer order, negatives included |
| `Layout.ExpiryIndexKeyInverse` | crates/keydock-fjall/src/repos.rs:104-126 | index-key parsing succeeds exactly on printed keys of non-empty storage keys and returns their parts |
| `Layout.ExpiryIndexKeyOrder` | crates/keydock-fjall/src/repos.rs:104-114 | byte order of index keys is the order on expiry, then storage key |
| `Decimal.DecimalRoundTrip` | crates/keydock-domain/src/counter.rs:82-121 | every i64 prints to text that trims and parses back, the minimum included |
| `Counter.StoredRoundTrip` | crates/keydock-domain/src/counter.rs:76-121 | storing a counter value and reading it back is the identity |
| `Numbers.TrimExact` | crates/keydock-usecase/src/keys.rs:210 | trimming takes away white space at both ends, all of it and nothing else |
| `Numbers.PaddingChangesNothing` | crates/keydock-domain/src/counter.rs:26-29 | white space around a body changes neither its kind, nor a delta, nor a stored number |
| `Numbers.ParseI64Exact` | crates/keydock-domain/src/counter.rs:37-39 | an integer is exactly an optional sign, zeros and the decimal digits of a value of 64 bits |
| `Numbers.DeltaGrammar` | crates/keydock-domain/src/counter.rs:26-47 | a delta is exactly a signed integer or a signed finite float; anything else is refused |
| `Numbers.KindOfBody` | crates/keydock-usecase/src/keys.rs:191-225 | the kind of every body, each of the five exactly |
| `Numbers.InferredValue` | crates/keydock-usecase/src/keys.rs:112-118 | the bytes are kept as they are; exactly what is over the size limit is refused |
| `Numbers.MergeFloat` | crates/keydock-domain/src/counter.rs:58-73 | when either side is a float the float sum is stored, or refused exactly when it is not finite |
| `Counter.InferredIsNumeric` | crates/keydock-usecase/src/keys.rs:112-118 | a value inferred to be a number is accepted as a counter operand; Int64 exactly when the undeclared text parses |
| `Counter.MergeOutcome` | crates/keydock-fjall/src/store.rs:267-281 | an increment yields a readable number, starts from zero on a missing key, rejects non-numbers, and never turns a float into an integer |
| `Counter.MergeInt` | crates/keydock-domain/src/counter.rs:52-57 | an integer increment stores the sum, or is rejected exactly when the sum leaves the i64 range |
| `Counter.CounterHoldsTotal` | crates/keydock-domain/src/counter.rs:49-121 | after any run of integer increments the stored text reads as the sum of the accepted deltas |
| `Counter.FloatStaysFloat` | crates/keydock-domain/src/counter.rs:58-73 | the arithmetic alone never turns a float counter into an integer or loses it |
| `Counter.DeltaRoundTrip` | crates/keydock-domain/src/counter.rs:26-39 | the printed form of any delta, with its sign, parses back to it |
| `StoreSpec.ExpiryTestsAgree` | crates/keydock-fjall/src/store.rs:409-425 | the instant test and the second test agree at every instant |
| `StoreSpec.TtlBounds` | crates/keydock-usecase/src/keys.rs:122-147 | a TTL of s seconds is readable through w+s-1 and never from w+s, exactly by whole seconds |
| `StoreSpec.TtlOutcome` | crates/keydock-usecase/src/keys.rs:127-146 | a TTL means "never" exactly when it is zero or absent, and is refused exactly when the end is past the last instant |
| `StoreSpec.SweepKeyKeepsIndexed` | crates/keydock-fjall/src/gc.rs:107-150 | treating one index key keeps every expiring entry indexed |
| `StoreSpec.ApplyWritesKeepsIndexed` | crates/keydock-fjall/src/store.rs:350-368 | a batch keeps every expiring entry indexed |
| `Listing.AllRowsExact` | crates/keydock-fjall/src/store.rs:382-425 | the rows are strictly ascending and are exactly the unexpired, well-formed keys of the bucket with the prefix |
| `Listing.PageOfRows` | crates/keydock-fjall/src/store.rs:446-453 | row i of a page is row skip+i of the ordered rows, counted from the end when reversed |
| `Listing.ScanYieldsAllRows` | crates/keydock-fjall/src/store.rs:399-431 | filtering the scanned keys in order gives the ordered filtered rows, for both expiry tests |
| `Listing.ListNoticesMissing` | crates/keydock-fjall/src/store.rs:377-512 | for every order, skip and limit: a listing changes when entries go missing exactly when one of them stands before the end of a page that shows something |
| `Listing.WindowSuffices` | crates/keydock-fjall/src/store.rs:390-452 | keeping the last skip+limit matches, saturating, loses nothing of the reversed page |
| `FjallStores.ForwardScan` | crates/keydock-fjall/src/store.rs:455-511 | the skipping, counting, early-stopping loop returns the requested page |
| `FjallStores.TrimFront` | crates/keydock-fjall/src/store.rs:433-435 | popping from the front leaves the last entries of the window |
| `FjallStores.ReverseScan` | crates/keydock-fjall/src/store.rs:389-453 | the bounded-window loop returns the page of the reversed rows |
| `FjallStores.FjallStore.List` | crates/keydock-fjall/src/store.rs:377-512 | all four variants equal take(limit, drop(skip, order(filter))) |
| `FjallStores.FjallStore.Read` | crates/keydock-usecase/src/keys.rs:39-57 | a get at an instant answers as if a complete sweep at that second had just run: the entry if that would leave it, else missing |
| `FjallStores.FjallStore.Set` | crates/keydock-fjall/src/store.rs:195-219 | gets find the value given at every instant before the second of its expiry and nothing after; no other key changes; the index stays complete; it is the event the run theorems are about |
| `FjallStores.FjallStore.Delete` | crates/keydock-fjall/src/store.rs:226-238 | gets find nothing afterwards; raw presence is the answer; no other key changes |
| `FjallStores.FjallStore.Increment` | crates/keydock-fjall/src/store.rs:256-296 | gets find the number answered for the expiry given; a rejected increment changes nothing; answer and state are those of the run theorems' event |
| `FjallStores.FjallStore.ApplyBatch` | crates/keydock-fjall/src/store.rs:299-373 | one commit equals the operations one after the other; each key reads back what the last operation on it asked for, no other key changes; the index stays complete |
| `Sweep.BatchReadsBack` | crates/keydock-fjall/src/store.rs:350-368 | after a batch the last set of a key reads back its own value for its own expiry, a last delete leaves nothing |
| `FjallStores.FjallStore.SweepIndexKey` | crates/keydock-fjall/src/gc.rs:107-150 | drops the index key and removes the entry exactly when it still carries that due expiry |
| `FjallStores.FjallStore.SweepOnce` | crates/keydock-fjall/src/gc.rs:70-151 | leaves exactly the unexpired entries and the index keys not due, and counts the removals |
| `Sweep.NothingDueAfter` | crates/keydock-fjall/src/gc.rs:95-97 | after the first later key no due key follows, so the early break is safe |
| `Sweep.SweepFoldData` | crates/keydock-fjall/src/gc.rs:77-151 | over any list of index keys, stale or repeated, an entry goes exactly when its own key is listed and due |
| `Sweep.SweepExact` | crates/keydock-fjall/src/gc.rs:70-151 | a sweep is complete and exact and keeps the index complete |
| `Runs.ReplayKeepsIndexed` | crates/keydock-fjall/src/store.rs:195-373 | in every reachable state the index names every expiring entry |
| `Unswept.SweptIsCalmWithoutTaken` | crates/keydock-fjall/src/gc.rs:107-150 | with any sweep steps in a run, the data is that of the unswept run without exactly the entries taken, as long as no increment notices |
| `Unswept.TakenMeans` | crates/keydock-fjall/src/gc.rs:117-150 | taken means that a sweep step found the unswept entry due and no client has written the key since |
| `Unswept.AnswerDiffersIfNoticed` | crates/keydock-fjall/src/gc.rs:70-151 | after any run, the next answer of any operation differs from the unswept one exactly when it notices |
| `Unswept.SweeperUnobservable` | crates/keydock-fjall/src/gc.rs:37-40 | over a whole run, all gets, listings and increments answer as without the sweep steps exactly when none of them notices |
| `Unswept.ClockOrderedRunsLookUnswept` | crates/keydock-fjall/src/gc.rs:70-151 | with a nondecreasing clock the sweeper is unobservable but for a delete's boolean, with no further condition |
| `Unswept.ListNoticesBetween` | crates/keydock-usecase/src/keys.rs:64-80 | a listing notices only an entry that expired after its clock reading and was swept before its scan |
| `Unswept.DeleteAnswer` | crates/keydock-usecase/src/keys.rs:178-188 | when a delete's answer differs from the unswept one, exactly; and then the entry already reads as missing |
| `Unswept.DeleteTellsOfSweep` | crates/keydock-fjall/src/store.rs:226-238 | the run set, sweep, delete answers "missing" where the unswept run answers "deleted" |
| `Runs.SweepSeenOnlyByStaleClock` | crates/keydock-fjall/src/gc.rs:127-150 | one sweep step is visible to a read exactly when the reader's clock is behind the removed entry's expiry |
| `Runs.ClockOrderedIsWellTimed` | crates/keydock-support/src/clock.rs:12-16 | with a nondecreasing clock every run meets the timing condition |
| `Runs.BucketIsolation` | crates/keydock-fjall/src/repos.rs:13-20 | work for other buckets and any sweeping leave a bucket's lasting entries alone |
| `Runs.OtherBucketsDoNotShow` | crates/keydock-fjall/src/store.rs:386-405 | and therefore its listings |
| `Runs.TtlOverRun` | crates/keydock-usecase/src/keys.rs:39-57 | an entry left alone by clients is readable, with its own value, exactly until its TTL ends, swept or not |
| `CounterRuns.CounterOverRun` | crates/keydock-fjall/src/store.rs:256-296 | in any run a counter that is not overwritten and not met expired goes through exactly its own increments |
| `CounterRuns.FloatStaysFloatInStore` | crates/keydock-fjall/src/store.rs:266-292 | a float counter stays a float until it is overwritten or expires, whatever else the run does |
| `CounterRuns.FloatEndsExactly` | crates/keydock-fjall/src/store.rs:266-292 | which single events end a float counter: a sweep that finds it due, an integer increment that finds it expired, a write of the key |
| `CounterRuns.CounterHoldsTotalInStore` | crates/keydock-fjall/src/store.rs:256-296 | an integer counter in the store holds its first value plus the accepted deltas of the run |
| `CounterRuns.ExpiredCounterRestarts` | crates/keydock-fjall/src/store.rs:266-276 | an increment that finds the entry expired or gone starts again from integer zero, swept or not |
| `Runs.ReplayKeepsNumeric` | crates/keydock-fjall/src/store.rs:266-292 | every stored number in a reachable store parses |
| `Locks.StripePlanAscends` | crates/keydock-fjall/src/locks.rs:33-49 | the lock list is strictly ascending and names exactly the stripes of the keys |
| `Concurrency.RunKeepsInv` | crates/keydock-fjall/src/locks.rs:26-49 | every schedule keeps mutual exclusion, stable reads and the link to the serial run |
| `Concurrency.Serializable` | crates/keydock-fjall/src/store.rs:195-373 | data and all answers are those of the committed operations one at a time in commit order |
| `Concurrency.IndexCompleteBetweenSteps` | crates/keydock-fjall/src/gc.rs:99-150 | an expiring entry is indexed unless a sweeper is between dropping that key and deciding |
| `Concurrency.SweeperTakesOnlyExpired` | crates/keydock-fjall/src/gc.rs:117-150 | a sweeper step changes no entry but by removing one due at its own timestamp |
| `Concurrency.ConcurrentAnswers` | crates/keydock-fjall/src/gc.rs:70-151 | in any interleaving each answer differs from the serial unswept one exactly when the client notices, which gets and increments never do |
| `Concurrency.ConcurrentRunsLookSerialAndUnswept` | crates/keydock-fjall/src/gc.rs:70-151 | data is that of the serial unswept run without the taken, expired entries; the clients together see that run exactly when no listing notices |
| `Race.ListingCanNoticeSweep` | crates/keydock-usecase/src/keys.rs:64-80 | an interleaving in which a listing misses an entry that its own clock reading calls unexpired |
| `Ledger.EachOperationLoggedOnce` | crates/keydock-fjall/src/store.rs:263-293 | each finished set, delete, increment, batch, get and listing is in the commit order exactly once, with its arguments and answer |
| `Ledger.ConcurrentIncrementsAddUp` | crates/keydock-fjall/src/store.rs:256-296 | no update is lost: the key ends at its first value plus the accepted deltas, whatever expiries not before the end of the schedule the increments carry |
| `Thorough.FinishedSweepIsComplete` | crates/keydock-fjall/src/gc.rs:77-151 | when a sweeper is done in any interleaving, what was due at its snapshot is gone, written again since, or being removed by another sweeper |
| `Thorough.OnlySweeperIsComplete` | crates/keydock-fjall/src/gc.rs:47-66 | with one sweep at a time, as the repository runs it: gone or written again |
| `Progress.NoDeadlock` | crates/keydock-fjall/src/locks.rs:33-49 | a reachable state with unfinished threads has a thread that can move |
| `Progress.EveryScheduleEnds` | crates/keydock-fjall/src/gc.rs:77-151 | no infinite sequence of enabled steps exists |
| `Base64Url.EncodeRoundTrip` | crates/keydock-usecase/src/tokens.rs:18-19 | decoding undoes encoding for every byte string, whatever its length modulo three |
| `Base64Url.AlphabetOrder` | crates/keydock-usecase/src/tokens.rs:18-19 | the alphabet of section 5 of RFC 4648, in its order, and no other character |
| `Base64Url.PackIsBigEndian` | crates/keydock-usecase/src/tokens.rs:18-19 | bytes and sextets of a group are the same number, most significant first; a short group is filled with zero bits |
| `Base64Url.DecodeCanonical` | crates/keydock-usecase/src/tokens.rs:37-42 | only the printed text decodes |
| `Tokens.TokenTextRoundTrip` | crates/keydock-usecase/src/tokens.rs:18-42 | splitting a token at its first dot and decoding recovers payload and signature |
| `Tokens.MintedVerifies` | crates/keydock-usecase/src/tokens.rs:14-64 | the exact condition under which a minted token verifies against any policy |
| `Tokens.VerifiedTextIsSigned` | crates/keydock-usecase/src/tokens.rs:25-64 | whatever verifies is the printed form of bytes signed with the current key, for this bucket, generation and time |
| `Access.AnonymousGoesByFlags` | crates/keydock-http/src/extract.rs:82-290 | stored flags match the keys exactly when anonymous requests go by the flags and are never answered 403 |
| `Lifecycle.CredentialRights` | crates/keydock-usecase/src/auth.rs:42-85 | what each credential is good for, through authentication and every check: secret key, write key, read key, a token's claims under its prefix, else 401 |
| `Lifecycle.AnonymousRights` | crates/keydock-http/src/extract.rs:82-290 | without a credential, what has no key is open and what has one answers 401 |
| `Lifecycle.AuthenticatedBucket` | crates/keydock-http/src/extract.rs:46-53 | whoever is let in acts on the bucket asked for, under its default TTL |
| `Lifecycle.CreatedBucket` | crates/keydock-http/src/routes/buckets.rs:395-456 | a new bucket accepts exactly its creator's keys, each as its kind, and has the form's TTL or seven days; no other bucket changes |
| `Lifecycle.DeletedBucket` | crates/keydock-http/src/routes/buckets.rs:729-742 | deletion takes away the bucket, and only it, exactly for the holder of the secret key |
| `Lifecycle.PolicyDraft.Apply` | crates/keydock-http/src/routes/buckets.rs:648-701 | accepted exactly when no empty text and no cleared secret; each named field accepts exactly the new key or is cleared, every other field is as before; generation and audit record |
| `Lifecycle.MetaStore.Update` | crates/keydock-http/src/routes/buckets.rs:574-628 | the same of the stored policy, with flags that follow the keys; no other bucket changes; a refusal changes nothing |
| `Lifecycle.AdminOnlyBySecretKey` | crates/keydock-usecase/src/auth.rs:42-85 | a caller passes authentication and the admin check exactly by presenting the secret key |
| `Lifecycle.ReachablePoliciesConsistent` | crates/keydock-http/src/routes/buckets.rs:408-440 | in every run the stored anonymous flags are those derived from the keys |
| `Lifecycle.SecretKeyNeverLost` | crates/keydock-http/src/routes/buckets.rs:662-669 | a present secret key is never cleared |
| `Lifecycle.KeylessBucketFrozen` | crates/keydock-http/src/extract.rs:65-79 | a bucket without a secret key keeps its policy in every run, cannot be deleted, and has no token minted for it |
| `Lifecycle.GenerationCountsChanges` | crates/keydock-http/src/routes/buckets.rs:678-695 | the generation counts changes of the key bytes modulo 2^64 |
| `PermissionLists.ParsePermissions` | crates/keydock-http/src/routes/tokens.rs:30-49 | the flags are the words of the list; refused exactly when a word is unknown or there is none |
| `PermissionLists.SplitRejoined` | crates/keydock-http/src/routes/tokens.rs:32 | the parts hold no comma and rejoin to the text |
| `Lifecycle.CreateTokenOutcome` | crates/keydock-http/src/routes/tokens.rs:73-135 | who gets a token and with which error the others are refused; the claims are the form's prefix, words and TTL from now, under the current key |
| `Lifecycle.TokenGrants` | crates/keydock-http/src/routes/tokens.rs:103-118 | from minting to use after any run: the form's permissions on keys under the form's prefix while it lives, 401 afterwards |
| `Lifecycle.TokenLifeExact` | crates/keydock-http/src/routes/tokens.rs:78-120 | after any run, the exact condition for an earlier token to verify, wrap-around included |
| `Lifecycle.TokenLife` | crates/keydock-http/src/routes/tokens.rs:86-120 | in fewer than 2^64 calls: its bucket, before expiry, and no change of key since; rotating back does not revive it |
| `Lifecycle.FlipsReviveTokenAtWrap` | crates/keydock-http/src/routes/buckets.rs:678-695 | rotating the key away and back, a token verifies again exactly after every multiple of 2^64 rotations |
| `BucketListing.CombineIsIntersection` | crates/keydock-http/src/routes/buckets.rs:195-209 | the combined prefix selects the intersection, and is missing exactly when that is empty |
| `BucketListing.ScopedListIsSound` | crates/keydock-http/src/routes/buckets.rs:495-538 | every row shown is in scope, in the request and unexpired |
| `BucketListing.ScopedListIsExact` | crates/keydock-http/src/routes/buckets.rs:495-538 | the answer is the requested page of exactly those rows in key order, for every skip, limit, direction and shape, given or default |
| `KeyRoutes.PutKey` | crates/keydock-http/src/routes/keys.rs:150-193 | stored exactly when key, permission, size and TTL pass; then the body's own bytes and inferred kind are read exactly for the TTL asked for, else the bucket's |
| `KeyRoutes.PatchKey` | crates/keydock-http/src/routes/keys.rs:252-289 | adds the parsed delta to the number found, exactly when everything passes, and it lives for the TTL asked for |
| `KeyRoutes.GetKey` | crates/keydock-http/src/routes/keys.rs:62-84 | the value found, or why not |
| `KeyRoutes.DeleteKey` | crates/keydock-http/src/routes/keys.rs:213-231 | afterwards the key is not found; 404 exactly when it was not stored |
| `Txn.BuildOutcome` | crates/keydock-http/src/routes/txn.rs:108-132 | when an item passes, by key, permission, null, size and TTL; what it is refused with; what it stores |
| `Txn.BuildOps` | crates/keydock-http/src/routes/txn.rs:102-133 | builds all exactly when all pass, else the first failing item's error; counts sets and deletes |
| `Txn.ExecuteTxn` | crates/keydock-http/src/routes/txn.rs:92-149 | all or nothing, in order; succeeds exactly when every item passes; the last set of a key reads back the item's bytes and kind for its lifetime, a last delete leaves nothing, no other key changes |
| `Txn.BuiltOpIsAuthorized` | crates/keydock-http/src/routes/txn.rs:108-132 | every operation built was authorized for its key and carries a well-kinded value |
| `Txn.TxnStaysAuthorized` | crates/keydock-http/src/routes/txn.rs:105-138 | an entry a transaction stores needed write permission on its key, an entry it removes delete permission, both within the caller's scope |
| `StoreSpec.LastWriteWins` | crates/keydock-fjall/src/store.rs:350-368 | of several operations on one key the last decides |

## Left out

- Storage failures, poisoned mutexes and undecodable entries: the model assumes storage calls succeed and entries decode.
- The two steps of a get: the model reads the entry and names the later instant at which expiry is judged in one step.
- Concurrent scans: a listing's scan and the sweeper's index scan are single reads of a snapshot.
- Concurrent policy patches: load, patch and store are not locked in the source, so handler calls are modelled serially.
- Bucket ids: creation draws a random UUID; runs assume it is fresh.
- Mint failures: the keyed hash and the JSON form of claims always exist.
- `Content-Type` text: reduced to JSON, plain text, other or none before kind inference.
- Percent decoding of keys, the e-mail check of bucket creation, response rendering, HTTP routing, metrics, rate limiting, configuration and the client SDK.
- FjallStores.FjallStore.List: is stated for keyspaces of at most `usize::MAX` keys, the range of the source's counters.
- Real floating-point arithmetic: only the kind behaviour of float counters is decided.
- The expiry and scan counters the sweeper logs; only the number of removed keys is specified.
