# nx-remote-cache: a model and its proofs

nx-remote-cache is a content-addressed artifact cache: clients upload (`PUT`) and download (`GET`)
task outputs by hash, an artifact is written once and never overwritten, a janitor and the admin API
remove old ones. This project models its storage protocol, its paging and deleting loops, its live
settings, and its server and session behaviour in Dafny, and proves what holds over every
interleaving or every run. `dafny verify dfyconfig.toml` checks all of it.

## How it is organised

- **Local storage under concurrency.** `LocalProtocol` is a state machine over a file system of
  names, inodes and bytes: any number of `Put`, `Get` and `Delete` calls, each in an explicit phase,
  one transition per system call (any of which may fail). A finished upload has two names, the hash
  and the temporary one, until the deferred unlink. `Contract` is the atomic put-if-absent map.
  `LocalInvariant` and `LocalRefinement` prove linearizability and the absence of torn reads,
  `LocalConservation` counts, `Local` gives the methods themselves as imperative code with arbitrary
  moves of other clients before every system call, and `LocalListing` runs `List` through a behaviour.
- **Paging and deleting.** `Listing` proves the binary search and the cursor walk. `CacheStore` is
  the store as the loops meet it: before each call other clients may upload, record reads, and create
  temporary files, and each call may fail. `PagedDeletion` holds what both deleting loops keep;
  `Janitor`, `AdminCache` and `AdminListing` are the loops; `Retention` is the janitor over time.
- **Settings.** `Settings` has the records, encryption and the update; `SettingsManager` the object
  that keeps five copies (stored row, in-memory record, live backend, session TTL, size limit);
  `SettingsRuns` what every run keeps. `Durations` is 64-bit duration arithmetic.
- **Server.** `Tokens` and `Server` hold the decision order of the handlers, the token table, and a
  storage that a settings update can move: there is one map of artifacts per place. A handler takes
  one transition for its hash and token, an upload one for its length, and both one to take hold of
  the backend in use and one for the operation on it; any other request may come in between.
  `ServerRuns` has the laws of whole runs, `TokenRuns` those about tokens, `ReadCounts` those of the
  read counters, which are recorded after the answer.
- **Object storage.** `ObjectKeys` is `path.Join`/`path.Clean` on segments and the key mapping;
  `S3` the exists-then-put backend, one call at a time.
- **Admin sessions.** `Sessions`, `SessionManager` and `SessionRuns`; the deletion of a user takes two
  transitions, its guards and its statement.

Methods that change state are proved equal to a specification function or to the protocol, and the
main results are lemmas about those. Time, randomness, failures and the moves of other clients are
parameters. Encryption is any pair for which decryption inverts encryption, hashing any injective
function; both assumptions are shown to be satisfiable.

## What the proofs found

Each of these comes with the input that shows it and, where it is a matter of a condition, with the
exact condition.

- `session_ttl_seconds` is a 32-bit column, so an update with a longer TTL passes validation and the
  connectivity check and then fails to persist (`SettingsRuns.LongTTLFailsToPersist`).
- Some large TTL requests wrap in 64 bits to a fraction of a second, are accepted, and read as zero
  after a restart (`SettingsRuns.RestartLosesWrappedTTL`); a restart reproduces the live state exactly
  when the TTL is a whole number of seconds (`SettingsRuns.RestartEquivalence`).
- If the statement that stores the settings takes effect but its answer is lost, the update is
  reported as failed and only the row changes. The copies then agree exactly if the request asked for
  nothing new (`SettingsRuns.LostAnswerSplits`), and a restart comes up with the failed request
  (`SettingsRuns.RestartTakesLostRequest`).
- A settings update that moves the storage makes a download miss an artifact that was uploaded and
  never removed: exactly when it is served from another place whose own history does not have the
  artifact (`ServerRuns.MissAfterUpload`, `ServerRuns.MovedStorageMisses`). The janitor's retention
  bound likewise holds, whatever the moved-in storage contains, if and only if it has been swept since
  the move (`Retention.BoundIffSwept`).
- A token's check and its operation are apart: an upload let through before its token is revoked can
  be stored after (`TokenRuns.RevocationCanComeTooLate`). A revocation is final if and only if no
  upload with that token is in flight whose body is as long as announced
  (`TokenRuns.RevocationIsFinalIff`). Token and length limit are read at two moments, too, so every
  stored upload was let through while its token was valid and, later, measured against the limit of
  that later moment (`TokenRuns.UploadsWereAuthorized`).
- Deployments that share a bucket are isolated if and only if neither prefix covers the other, as ""
  covers all and "a" covers "a/b": the listing of the one then shows artifacts of the other under names
  that are no hashes, and the loops that delete pass such names on, which deletes the other's artifact
  (`ObjectKeys.ListingReachesIff`, `ObjectKeys.NestedDeployment`, `S3.DeleteReachesOther`).
- A prune of 106752 days or more computes a wrong cutoff; at 106752 it lies in the future and marks
  every entry (`Durations.PruneOffsetExact`, `AdminCache.WrappedPruneMarksAll`).
- With an S3 prefix that `path.Clean` changes, or "/" or ".", uploads and downloads work but `List`
  finds nothing, so nothing is ever swept or shown (`ObjectKeys.KeyRoundTrip`); a trailing slash is
  enough (`ObjectKeys.TrailingSlashHides`, `ObjectKeys.CacheSlashHides`), and the cleaned prefix works
  (`ObjectKeys.CleaningRepairs`).
- Two admins who delete each other at the same time leave no user
  (`SessionRuns.RacingDeletionsEmptyTheTable`). Over all interleavings someone is left if and only if
  some user is not the target of a deletion past its guards (`SessionRuns.SomeoneStaysIff`,
  `SessionRuns.GuardIsSafeIff`); one deletion at a time is always safe
  (`SessionRuns.NeverWithoutAdmin`).
- A logout answers 200 and clears the cookie even if the session row could not be deleted, and then
  the session still stands for its user (`SessionRuns.LoggedOutButKnown`).
- Comments that differ from the code: `internal/storage/local.go:71` speaks of a rename, the code
  links; `internal/store/sessions.go:46` says expired sessions are pruned on login, nothing calls
  that function. The model follows the code.

## Model

| member | source | states |
|---|---|---|
| Contract.ReplayIsLatestStore | internal/storage/storage.go:22-37 | the map left by a history of calls holds, for each hash, the upload with no later removal |
| Contract.ReadsAreCoherent | internal/storage/storage.go:30-33 | in a legal history every hit returns the latest upload with no removal in between, and a miss means there is none |
| Contract.Conservation | internal/storage/storage.go:16-19 | in a legal history uploads minus removals of a hash are 1 if it is present, else 0 |
| Names.BelowIsStrictTotal | internal/storage/local.go:118-128 | the name order is irreflexive, transitive and total |
| Names.FirstDifferenceDecides | internal/storage/local.go:118-128 | it is the order of Go strings: the first differing character decides, and a proper prefix comes first |
| Names.AscendingUnique | internal/storage/local.go:118-119 | a sorted listing is determined by the names in it |
| Names.TempNameIsTemp | internal/storage/local.go:52 | every temporary name is skipped by `List` and is no valid hash |
| Names.ValidHashIsNotTemp | internal/storage/storage.go:57-65 | a valid hash is never taken for a temporary name |
| Names.ValidHashExamples | internal/storage/storage.go:57-65 | 1 to 128 letters, digits, `_` and `-` are a valid hash, no empty or longer name is, nor one with a slash, dot, percent sign or space |
| Names.FinitelyManyHashes | internal/storage/storage.go:60 | the valid hashes all lie in one finite set, which is why paging ends |
| LocalInvariant.StepKeepsFsInv | internal/storage/local.go:44-104 | every system call keeps: each visible name points to the complete bytes of one successful upload of that hash, each temporary name to its own call's inode |
| LocalInvariant.StepFrame | internal/storage/local.go:52-80 | a system call leaves other calls, published inodes and other calls' temporary files alone |
| LocalRefinement.LinkRefines | internal/storage/local.go:73-79 | the link is the upload taking effect, all at once, or a refusal |
| LocalRefinement.UnlinkRefines | internal/storage/local.go:57 | removing the second name of a published inode is invisible |
| LocalRefinement.InodeStepRefines | internal/storage/local.go:52-69 | creating and filling a temporary file is invisible |
| LocalRefinement.StepRefines | internal/storage/local.go:44-104 | each system call is invisible or exactly one allowed operation of the put-if-absent map, by the call that makes it |
| LocalRefinement.StepKeepsInv | internal/storage/local.go:44-104 | the file-system invariant and the history's explanation of every call are kept by every transition |
| LocalRefinement.Reachable | internal/storage/local.go:44-104 | every state of every interleaving that starts from an empty directory satisfies the invariant |
| LocalRefinement.Linearizable | internal/storage/local.go:44-104 | in every reachable state the history is legal, leaves exactly the visible artifacts, and has for each call the one event its result reports |
| LocalRefinement.RealTimeOrder | internal/storage/local.go:44-104 | a call that returned before another began comes first in the history |
| LocalRefinement.NoTornReads | internal/storage/local.go:59-96 | a completed download has exactly the announced bytes of one successful upload of that hash, whatever was deleted or uploaded meanwhile |
| LocalRefinement.TempsInvisible | internal/storage/local.go:122 | the names without the temporary mark are exactly the visible artifacts, and valid hashes |
| LocalRefinement.NoLeftoverTemps | internal/storage/local.go:57 | unless an unlink failed, every temporary file belongs to an upload still running |
| LocalConservation.HashConservation | internal/storage/local.go:45-104 | per hash, successful uploads equal successful deletions plus one if it is visible, in every reachable state |
| LocalConservation.AtMostOneWinner | internal/storage/local.go:45-79 | of any uploads of one hash racing without a deletion at most one succeeds |
| LocalConservation.DownloadsAreCoherent | internal/storage/local.go:82-96 | a completed download took effect at one point and returned the latest upload before it with no removal in between |
| Local.Directory.Put | internal/storage/local.go:44-80 | under interference, each result of the method corresponds to its one event (or none), success stores exactly `size` bytes of the body, it reports a short write only for a body shorter than announced, and fails only if one of its own system calls failed |
| Local.Directory.Get | internal/storage/local.go:82-96 | under interference, the stream has the announced length and is one complete upload of the hash; it fails only if one of its own system calls failed |
| Local.Directory.Delete | internal/storage/local.go:98-104 | each result corresponds to its one event, or to none on failure, and it fails if and only if its system call failed |
| Local.Directory.SysCreateTemp | internal/storage/local.go:52 | a fresh temporary name and an empty inode |
| Local.Directory.SysCopy | internal/storage/local.go:59-69 | the copy ends with as many bytes as the body delivers, at most `size`, or fails |
| LocalListing.KeptIsVisible | internal/storage/local.go:120-126 | of any reachable directory `List` keeps exactly the visible artifacts |
| LocalListing.PagingThroughBehaviour | internal/storage/local.go:108-146 | pages read at different moments of one interleaving: no hash twice, one visible throughout is returned, every entry is a valid hash with the size of an artifact visible under it |
| Listing.Search | internal/storage/local.go:128 | the binary search finds the first name greater than the cursor |
| Listing.KeepNames | internal/storage/local.go:120-126 | directories and temporary files are dropped |
| Listing.StatNames | internal/storage/local.go:135-141 | names removed meanwhile are skipped |
| Listing.List | internal/storage/local.go:108-146 | the page equals the one defined by "names after the cursor", with the default for a non-positive limit |
| Listing.PageMeaning | internal/storage/local.go:128-144 | entries ascend strictly after the cursor, at most `limit`, each listed and answered by its stat; the next cursor advances |
| Listing.PageCovers | internal/storage/local.go:128-144 | a listed name after the cursor is on the page or after the next cursor |
| Listing.PageIsFull | internal/storage/local.go:113-144 | when every listed file can be stated, a page with a next cursor has exactly the limit of entries, 50 for a limit that is not positive |
| Listing.NextCursorAdvances | internal/storage/local.go:142-144 | a next cursor lies after the cursor, with fewer valid hashes behind it, so every walk ends |
| Listing.WalkAscends | internal/storage/local.go:118-144 | under arbitrary uploads and deletions a walk returns strictly ascending hashes |
| Listing.WalkCovers | internal/storage/local.go:118-144 | a hash present at every call is returned |
| Listing.WalkIsSound | internal/storage/local.go:118-144 | everything returned was listed and stated by one of the calls |
| Listing.PagingExact | internal/storage/local.go:108-146 | for any limit each hash comes at most once, and one present throughout exactly once |
| Listing.QuietPagingExact | internal/storage/local.go:108-146 | without interference the walk returns the sorted visible names |
| CacheStore.Store.List | internal/storage/local.go:108-146 | the page is exact for the store after the other clients' moves |
| CacheStore.Store.Delete | internal/storage/local.go:98-104 | removes one hash, or reports its absence or a failure |
| CacheStore.AccountMoves | internal/janitor/janitor.go:95-117 | uploads of others keep the account "initial minus removed plus uploaded" |
| CacheStore.ReplayedRow | internal/store/cache_reads.go:15-33 | row by row, a cleared read row starts again with the reads recorded after that, and any other goes on counting |
| CacheStore.PageIsExact | internal/storage/local.go:113-145 | a page has the current entries after the cursor, none missing up to its next cursor, whatever temporary files there are |
| PagedDeletion.EntryHandled | internal/janitor/janitor.go:100-112 | judging one entry moves the frontier past it without losing or repeating a marked hash |
| PagedDeletion.PageEnds | internal/janitor/janitor.go:113-116 | at the end of a page the frontier is the next cursor, or everything is handled |
| PagedDeletion.Pass.Remove | internal/janitor/janitor.go:104-111 | a marked entry is deleted and its read row cleared, or recorded as failed; one more is counted |
| PagedDeletion.Pass.Turn | internal/janitor/janitor.go:113-116 | the last page finishes the marked set; any other advances the cursor in a finite set |
| Janitor.RecentUploadsAreFresh | internal/janitor/janitor.go:89-91 | uploads younger than the cutoffs are never marked |
| Janitor.ExpendableMeans | internal/janitor/janitor.go:121-129 | the rule marks exactly what is too old, and what is older than the unread period with no read row or no read within it |
| Janitor.Janitor.JudgePage | internal/janitor/janitor.go:100-112 | the inner loop handles every entry of its page |
| Janitor.Janitor.Sweep | internal/janitor/janitor.go:83-129 | under uploads and reads by others: of the entries at the start exactly those go that are older than the maximal age, or older than the unread period and without a read in it (but those whose deletion failed), all uploads stay, the count is the number removed; the read rows are the loaded ones after a log that holds every read recorded meanwhile, in order, and clears exactly the removed entries (but where clearing failed); a failed listing is still accounted for; without failures there is no error and nothing is left out; it terminates |
| Retention.SweepAtOnce | internal/janitor/janitor.go:83-129 | `Sweep` with the store to itself takes entries and read rows exactly where the sweep event of the timed model takes them, and counts the expired entries |
| Retention.SweptRecently | internal/janitor/janitor.go:54-67 | as long as the storage is not moved, everything stored after a sweep is no older than the maximal age at that sweep |
| Retention.RetentionBound | internal/janitor/janitor.go:25-67 | with sweeps at most the interval apart, once the storage in use has been swept none of its entries gets older than the maximal age plus the interval |
| Retention.BoundIffSwept | internal/storage/dynamic.go:24-31 | whatever a storage contains when it is moved in, its entries keep the bound if and only if it has been swept since the last move |
| Retention.TouchIsRecorded | internal/janitor/janitor.go:121-129 | an entry in use stays stored, and the read table knows its last use |
| Retention.InUseSurvives | internal/janitor/janitor.go:30-35 | while the storage is not moved, an entry not past the maximal age and read at least every unread period survives every sweep |
| Retention.RecordedReadHappened | internal/store/cache_reads.go:15-33 | the last read in the read table is a read that happened, and since then no entry of that hash was removed or swept |
| Retention.RemovedIsGone | internal/adminapi/cache_handlers.go:95-105 | in every run a removed entry is gone until it is uploaded again or the storage is moved |
| Retention.SweepKeepsIff | internal/janitor/janitor.go:121-129 | in every run an entry outlives a sweep if and only if it is within the maximal age, and within the unread period or last read within it |
| Retention.SurvivorsAreInUse | internal/janitor/janitor.go:25-35 | the counterpart of `InUseSurvives`: whatever is left by a sweep is within the maximal age and was uploaded within the unread period, or read within it since an entry of that hash was last dropped |
| AdminCache.Admin.PruneOlderThan | internal/adminapi/cache_handlers.go:182-205 | removes exactly the entries before the cutoff, or on failure those marked up to that point of the listing; count and store drop agree; the read rows are the initial ones after the reads recorded meanwhile and the clearing of exactly the removed entries |
| AdminCache.Admin.HandlePrune | internal/adminapi/cache_handlers.go:157-176 | rejects non-positive days; for every other count success removes exactly the entries before the computed cutoff and an error a listing prefix of them, with the read rows as for a prune; within the exact range these are the entries older than that many days |
| AdminCache.WrappedPruneMarksAll | internal/adminapi/cache_handlers.go:168 | at 106752 days the cutoff lies in the future and every entry is marked |
| AdminCache.Admin.HandleBulkDelete | internal/adminapi/cache_handlers.go:126-151 | invalid, absent and repeated hashes are not counted; the count is the drop in store size; without failures exactly the named stored hashes go |
| AdminCache.HandledIsPrefix | internal/adminapi/cache_handlers.go:190-194 | what is removed before a failure is a prefix of the marked entries in listing order |
| AdminCache.QuietDrop | internal/adminapi/cache_handlers.go:182-205 | without uploads the number removed is what the store lost |
| AdminListing.BeforeIsStrictWeakOrder | internal/adminapi/cache_handlers.go:74-83 | the comparator is a strict weak order |
| AdminListing.SortedMeans | internal/adminapi/cache_handlers.go:72-83 | read entries first by latest read, then the rest by latest modification |
| AdminListing.JoinStats | internal/adminapi/cache_handlers.go:62-70 | each entry gets its own statistics, zero reads when there are none |
| AdminListing.PageIsShown | internal/adminapi/cache_handlers.go:62-70 | rows that are the joined page in some order show each of its entries, with size, time, read count and last read (none without a read row), and nothing else |
| AdminListing.PageLimitMeans | internal/adminapi/cache_handlers.go:36-41 | a requested limit from 1 to 500 is taken, anything else reads as 50 |
| AdminListing.HandleListCache | internal/adminapi/cache_handlers.go:34-86 | the shown page is a sorted permutation of the backend page joined with statistics (zero when unknown), with the backend's cursor |
| AdminListing.AdminWalkCounts | internal/adminapi/cache_handlers.go:62-83 | walking the sorted pages shows each hash as often as the plain walk |
| AdminListing.AdminWalkExact | internal/adminapi/cache_handlers.go:43-83 | no entry twice, and one that stays exactly once |
| Durations.PruneOffsetExact | internal/adminapi/cache_handlers.go:168 | the cutoff is exact if and only if the day count is at most 106751 |
| Durations.PruneOffsetMonotone | internal/adminapi/cache_handlers.go:168 | within the range more days never bring the cutoff closer |
| Durations.PruneOffsetWraps | internal/adminapi/cache_handlers.go:168 | one day more and the cutoff lies in the future |
| Durations.SecondsRoundTrip | internal/adminapi/settings_handlers.go:98 | seconds survive conversion to a duration and back if and only if their nanoseconds fit |
| Durations.WholeSeconds | internal/settings/settings.go:321 | a duration survives storage in seconds if and only if it is a whole number of them |
| Settings.LawfulEncryptorExists | internal/settings/settings.go:286-306 | the law "decryption inverts encryption" can be met |
| SettingsManager.Manager.Load | internal/settings/settings.go:121-143 | the statement-by-statement load has exactly the specified effect on the five copies, or changes nothing |
| SettingsManager.Manager.Apply | internal/settings/settings.go:157-214 | the statement-by-statement update has exactly the specified effect on the five copies and answer |
| SettingsRuns.LoadedFlags | internal/settings/settings.go:286-306 | after `Load` the flags mean "configured" if and only if no stored secret is an encryption of the empty string |
| SettingsRuns.StorageRoundTrip | internal/settings/settings.go:269-347 | decrypting what was encrypted for storage gives the settings back, the TTL cut to whole seconds |
| SettingsRuns.LoadAgrees | internal/settings/settings.go:121-143 | after a successful `Load` of a sound row the five copies agree |
| SettingsRuns.LoadDoesRow | internal/settings/settings.go:121-308 | `Load` succeeds if and only if the row can be read, its secrets decrypted and the client built; the live backend is then the S3, GCS or local client, by the kind the row names, with bucket, region, prefix, endpoint, path style, directory and decrypted keys of the row |
| SettingsRuns.ApplyAgrees | internal/settings/settings.go:157-214 | success if and only if every stage passes, and then the five copies agree on the validated request, with a backend that has answered the probe; a failure changes none of them, or only the row when the answer to its statement was lost |
| SettingsRuns.ApplyDoesRequest | internal/settings/settings.go:157-267 | an update is refused as invalid if and only if the request breaks a rule of its kind (directory, bucket, positive TTL and size) or its client cannot be built or does not answer, and applied if and only if moreover its secrets can be encrypted and the statement takes the row; then the live backend is the client of the requested kind with the options of the request and the supplied or kept keys, and row, memory, answer, TTL and limit show the request |
| SettingsRuns.LostAnswerSplits | internal/settings/settings.go:199-205 | after a lost answer the copies agree if and only if the request asked for nothing new |
| SettingsRuns.LongTTLFailsToPersist | internal/db/migrations/0002_app_settings.up.sql:31 | a TTL of 2147483648 seconds passes every stage before the statement and changes nothing |
| SettingsRuns.AnswerIsRedacted | internal/settings/settings.go:68-73 | the answer carries no secret and truthful flags |
| SettingsRuns.RunAgrees | internal/settings/settings.go:121-214 | over any run of updates and restarts the copies in memory agree and the row is sound; all five agree once the last lost answer is settled |
| SettingsRuns.RunStaysValid | internal/settings/settings.go:216-240 | what is live and what is stored stay valid over any run whose requests ask for no fraction of a second |
| SettingsRuns.LiveBackendAnswered | internal/settings/settings.go:191-197 | the backend in use, before and after any restart, is the first one or has answered the `List` of an update |
| SettingsRuns.LastAppliedIsLive | internal/settings/settings.go:161-172 | restarts included, the server works with the last successful request, else with what it loaded |
| SettingsRuns.RestartEquivalence | internal/settings/settings.go:121-214 | after any settled run a fresh `Load` succeeds, agrees, reproduces backend and limit, and the whole live state if and only if the TTL is a whole number of seconds; what was valid is so again if and only if the TTL is at least a second |
| SettingsRuns.RestartTakesLostRequest | internal/settings/settings.go:121-205 | after a lost answer a restart comes up with the request reported as failed |
| SettingsRuns.RestartLosesWrappedTTL | internal/adminapi/settings_handlers.go:98 | a concrete request whose TTL is live but zero after a restart |
| SettingsRuns.UpdateReportsRequest | internal/adminapi/settings_handlers.go:48-98 | the stored and reported TTL equal the request if and only if it fits a duration |
| SettingsRuns.SecretLaw | internal/settings/settings.go:174-347 | over any run of updates and restarts each secret is the last value a successful call supplied, else the loaded one, and its flag says whether there is one |
| Tokens.Store.CreateToken | internal/store/tokens.go:28-42 | inserts a row with a new id, or reports a conflict |
| Tokens.Store.Authenticate | internal/store/tokens.go:81-96 | finds the active row and stamps its use |
| Tokens.Authorize | internal/auth/auth.go:47-64 | the decision for a raw token and a scope |
| Tokens.RevokeKeeps | internal/store/tokens.go:65-77 | ids stay unique; no row disappears, changes scope or loses its revocation |
| Tokens.RevocationIsExact | internal/store/tokens.go:65-77 | revoking an id ends exactly the token it was issued for, and dates that |
| Tokens.UseStamps | internal/store/tokens.go:81-96 | a use dates the row of that token and changes nothing else |
| Tokens.InjectiveDigestExists | internal/auth/auth.go:69-72 | the assumption on the token digest can be met |
| Server.OthersKeepFlight | internal/storage/dynamic.go:10-14 | whatever other requests do, a request in flight keeps its operation and the backend it holds |
| Server.Server.HandleGet | internal/server/server.go:63-118 | with other requests before it takes hold of the backend and before its operation: decision order and effect of a download, its recording left pending |
| Server.Server.HandlePut | internal/server/server.go:123-165 | with other requests also between the token and the length: decision order and effect of an upload |
| Server.Server.MoveStorage | internal/settings/settings.go:207-209 | a settings update swaps the backend and then sets the limit, with other requests in between |
| Server.Server.FinishRecording | internal/server/server.go:102-108 | one pending recording ends, in the table or in vain |
| ServerRuns.DownloadsAreRuns | internal/server/server.go:63-118 | a download interleaved with other requests is a run of the model, so the laws below apply to it |
| ServerRuns.UploadsAreRuns | internal/server/server.go:123-165 | so is an upload |
| ServerRuns.HandlersAnswer | internal/server/server.go:63-165 | and both answer, whatever the others do |
| ServerRuns.DownloadAlone | internal/server/server.go:63-118 | a download let through, undisturbed: the stored bytes and one more recording pending if the artifact is there, else 404 |
| ServerRuns.UploadAlone | internal/server/server.go:123-165 | an upload let through and within the limit, undisturbed: 409 and no change if the artifact is there, else 200 and its announced bytes are stored |
| ServerRuns.MeasureAnswers | internal/server/server.go:146-153 | 411 if and only if no positive length is announced, 413 if and only if it exceeds the limit |
| ServerRuns.HeldDownloadAnswer | internal/server/server.go:86-115 | a held download is answered with the stored bytes if and only if the storage works and has the artifact, 404 if and only if it works and has not, 500 if and only if it fails; a recording is pending exactly after a hit |
| ServerRuns.HeldUploadAnswers | internal/server/server.go:155-164 | a held upload: 409 if and only if the storage works and has the artifact, 200 if and only if it works, has not and the body is long enough, 500 otherwise |
| ServerRuns.StoreIsExplained | internal/server/server.go:150-159 | after any run each place holds for each hash what the last successful upload or removal there left |
| ServerRuns.DownloadsAreCoherent | internal/server/server.go:86-117 | a 200 carries the body of the most recent upload answered 200 to the place it is served from, with no removal there since; a 404 means there is none |
| ServerRuns.DownloadsAnswerHistory | internal/server/server.go:86-117 | the converse: in every run, served by a working storage, a download is answered 200 with what the history of its place says is stored, and 404 if the history says nothing is |
| ServerRuns.UploadsAnswerHistory | internal/server/server.go:155-164 | likewise an upload: 409 if the history has the artifact, else 200, or 500 for a short body |
| ServerRuns.RemovalsAnswerHistory | internal/adminapi/cache_handlers.go:95-106 | likewise a removal: it succeeds if and only if the storage works and the history has the artifact |
| ServerRuns.ServedFromHeldPlace | internal/storage/dynamic.go:24-55 | every operation was let through since its call id was last taken up, an upload then measured, and runs on the place in use when its request after that took hold of the backend |
| ServerRuns.MissAfterUpload | internal/settings/settings.go:207 | a download misses an artifact uploaded and not removed since if and only if it is served from another place whose history does not have it |
| ServerRuns.MovedStorageMisses | internal/settings/settings.go:207 | the run of an upload answered 200 and a download during which the storage is moved, answered 404 without any removal |
| ServerRuns.RefusedUploadsChangeNothing | internal/server/server.go:155-164 | a 409 met an earlier upload still at that place; no refused upload changes any store |
| ServerRuns.ExplainedOnce | internal/storage/storage.go:16-19 | the history leaves room for one content only |
| TokenRuns.RevokedForever | internal/store/tokens.go:65-96 | a request that arrives with a revoked token gets 401 for every valid hash, or 500 when the lookup fails |
| TokenRuns.UploadNeedsWriteToken | internal/auth/auth.go:60-63 | without a write token an upload is answered 400, 401, 403 or 500 and does not reach the storage |
| TokenRuns.ReadTokensLeaveStores | internal/auth/auth.go:32-34 | a run whose uploads bear no write token, without removals, leaves every store as it was |
| TokenRuns.TokenHistory | internal/store/tokens.go:28-96 | the table says of each raw token what the history of issues and revocations says |
| TokenRuns.AccessLaw | internal/auth/auth.go:43-64 | on arrival: 401 if and only if the token was never issued or has been revoked; 403 if and only if a usable read token uploads |
| TokenRuns.ArrivalLaw | internal/server/server.go:63-144 | on arrival every answer in terms of the history of issues and revocations: 400, 500, 401, 403, or let through, each if and only if |
| TokenRuns.ArrivalStampsUse | internal/store/tokens.go:81-96 | a request that arrives with a usable token dates the use of that token and changes no other |
| TokenRuns.IssueLaw | internal/store/tokens.go:28-42 | issuing succeeds if and only if the statement works and that raw token was never issued, else 409 |
| TokenRuns.RevocationLaw | internal/store/tokens.go:65-77 | a revocation succeeds if and only if the statement works and the history issued that id to a token not revoked since, else 404 |
| TokenRuns.UploadsWereAuthorized | internal/server/server.go:130-155 | every upload answered 200 was let through at one moment, with a token issued for writing and not revoked by then, and measured at a later one, within the limit of then, in the same use of its call id |
| TokenRuns.HeldUploadAnswer | internal/server/server.go:155-164 | a held upload is stored exactly if the storage works, the hash is absent there and the body is as long as announced, and no revocation changes that |
| TokenRuns.RevokedTokenStoresIff | internal/server/server.go:131-155 | once a token is revoked, some continuation stores an upload let through with it if and only if one is in flight whose body is as long as announced |
| TokenRuns.RevocationIsFinalIff | internal/store/tokens.go:65-77 | a revocation is final for uploads if and only if none that could be stored is in flight with its token at that moment |
| TokenRuns.RevocationCanComeTooLate | internal/server/server.go:131-155 | the run in which an upload is let through, its own token is revoked, and it is stored |
| ReadCounts.OneRequestBalances | internal/server/server.go:98-108 | each request keeps the balance of one hash |
| ReadCounts.RecordingAnswers | internal/server/server.go:102-108 | a recording finds something to do if and only if the history has more hits than recordings, and then fails only if its statement fails |
| ReadCounts.ReadsAreConserved | internal/store/cache_reads.go:15-33 | in every state, for every hash: hits equal pending plus failed plus erased plus counted, and the row is the recordings since the last clear |
| ObjectKeys.KeyShape | internal/storage/s3.go:68-73 | a key is the cleaned prefix, a slash and the hash, unless the prefix cleans to nothing |
| ObjectKeys.KeyRoundTrip | internal/storage/s3.go:68-80 | `List` finds the key of a valid hash, and maps it back, if and only if the prefix is empty, or clean and neither "/" nor "." |
| ObjectKeys.TrailingSlashHides | internal/storage/s3.go:68-73 | a slash behind a good prefix changes no key and hides all of them from `List` |
| ObjectKeys.CacheSlashHides | internal/storage/s3.go:162-164 | under "cache/" artifacts are kept as "cache/<hash>", which the query misses |
| ObjectKeys.KeyInjective | internal/storage/s3.go:68-73 | two valid hashes never share a key, whatever the prefix |
| ObjectKeys.PrefixesDisjoint | internal/storage/gcs.go:54-66 | deployments with different good prefixes never share a key |
| ObjectKeys.ListingReachesIff | internal/storage/s3.go:162-164 | the query of one deployment finds a key of another if and only if the prefixes are equal, the first is empty, or the second starts with the first and a slash |
| ObjectKeys.ListedNameOfOther | internal/storage/s3.go:75-80 | what it shows of another deployment is no valid hash, and leads back to the same key |
| ObjectKeys.NestedDeployment | internal/storage/s3.go:162-174 | the listing of "a" shows the artifacts of "a/b" as "b/<hash>" |
| ObjectKeys.CleanShortens | internal/storage/s3.go:68-73 | cleaning never lengthens a path |
| ObjectKeys.CleaningRepairs | internal/storage/s3.go:68-73 | cleaning is idempotent, and the cleaned prefix is good whenever anything is left of it |
| ObjectKeys.ParentGoesBack | internal/storage/s3.go:68-73 | in a prefix a name followed by ".." cancels out, "/.." is "/" and ".." stays |
| S3.PutObjectIsUpdate | internal/storage/s3.go:105-110 | writing one key changes that artifact and no other |
| S3.DeleteObjectIsRemoval | internal/storage/s3.go:143-146 | deleting a key removes the artifact of this deployment it keeps, if any, and no other |
| S3.DeleteReachesOther | internal/janitor/janitor.go:100-104 | under a covering prefix, deleting a listed name of another deployment removes that deployment's artifact and none of one's own |
| S3.ListedAreArtifacts | internal/storage/s3.go:162-176 | under a good prefix the valid hashes among the listed names are exactly the stored ones, under any other none of them is listed |
| S3.S3.Put | internal/storage/s3.go:96-115 | one call at a time it meets the contract; a lost answer may leave the upload in place |
| S3.S3.Get | internal/storage/s3.go:117-133 | returns the stored bytes with their length, or reports absence, one event of the contract each; a failure reports neither |
| S3.S3.Delete | internal/storage/s3.go:135-151 | takes any name, as the deleting loops pass it: removes the object under its key and touches no other, or reports absence; in the history that is the removal of the own artifact the key keeps, if any; a lost answer may leave it removed |
| Sessions.OneRequestKeepsSound | internal/db/migrations/0001_init.up.sql:1-13 | ids stay unique and every session belongs to a user |
| Sessions.WithoutUserKeepsSound | internal/db/migrations/0001_init.up.sql:8-13 | deleting a user takes all sessions along and no others lose their user |
| SessionManager.Store.DeleteUser | internal/store/users.go:85-94 | removes the user of that id with all sessions, or reports that there is none |
| SessionManager.Store.CreateUser | internal/store/users.go:19-33 | a new user under a fresh id, or a conflict on the email; no id is drawn twice |
| SessionManager.Manager.Login | internal/session/session.go:48-71 | the statement-by-statement login has exactly the specified effect: a session with the lifetime in force, or nothing |
| SessionManager.Manager.CurrentUser | internal/session/session.go:83-92 | the user of an unexpired session |
| SessionManager.Manager.Logout | internal/session/session.go:73-78 | deletes the row of that session and nothing else; an empty id does nothing |
| SessionManager.AdminServer.HandleDeleteUser | internal/adminapi/users_handlers.go:68-101 | with other requests in between: the guards in order, and later the cascade |
| SessionManager.AdminServer.HandleCreateUser | internal/adminapi/users_handlers.go:32-66 | validation, conflict, or a new user with a new id |
| SessionManager.AdminServer.HandleLogout | internal/adminapi/auth_handlers.go:70-76 | answers 200 even when the row could not be deleted |
| SessionRuns.RowIsExplained | internal/store/sessions.go:17-44 | the row of a session is the one its live login wrote |
| SessionRuns.TTLInForce | internal/session/session.go:34-44 | the lifetime in force is the last one set, else the initial one |
| SessionRuns.LoginAnswers | internal/session/session.go:48-71 | a login is answered with user `id` if and only if both statements work, the raw id is new, and the table has `id` under that email with a hash that verifies with the password; 401 if and only if the lookup works and there is no such user |
| SessionRuns.WhoIsLoggedIn | internal/session/session.go:38-92 | a raw id stands for a user if and only if the history has a login for it, no later logout or user deletion, and the time is before the login plus the lifetime then in force; that login presented a password that verified against the user's hash at that moment |
| SessionRuns.ProtectedAnswers | internal/adminapi/middleware.go:25-47 | a protected request is answered 401 if and only if its raw id does not stand for a user or the lookup fails, and then changes nothing |
| SessionRuns.LogoutAnswers | internal/adminapi/auth_handlers.go:70-76 | a logout takes away that session, unless its statement fails, and no other |
| SessionRuns.CreateUserAnswers | internal/adminapi/users_handlers.go:32-66 | 400, 500, 409 and success each if and only if; success adds exactly that user, under an id nobody has |
| SessionRuns.DeleteUserAnswers | internal/adminapi/users_handlers.go:68-88 | one's own account and the last one are refused with 400; past the guards if and only if neither and the count works |
| SessionRuns.RunDeleteAnswers | internal/adminapi/users_handlers.go:90-100 | 404 if and only if there is no such user; success removes exactly that user and the user's sessions |
| SessionRuns.LoggedOutButKnown | internal/adminapi/auth_handlers.go:70-76 | a login, a logout answered 200 whose statement fails, and the raw id still stands for the user |
| SessionRuns.SomeoneStaysIff | internal/adminapi/users_handlers.go:74-90 | over all interleavings: whatever runs next, short of new deletions, leaves a user, if and only if some user is not the target of a deletion past its guards |
| SessionRuns.FinishedIffSpare | internal/adminapi/users_handlers.go:90-99 | the deletions past their guards, finished in any order, leave someone if and only if there is such a user |
| SessionRuns.GuardIsSafeIff | internal/adminapi/users_handlers.go:74-88 | passing the guards is safe if and only if it leaves such a user |
| SessionRuns.SparedRunKeepsAdmin | internal/adminapi/users_handlers.go:74-90 | a run in which every deletion past its guards found such a user besides its target never empties the table |
| SessionRuns.NeverWithoutAdmin | internal/adminapi/users_handlers.go:74-88 | with one deletion at a time a non-empty user table never becomes empty, whatever else is interleaved |
| SessionRuns.RacingDeletionsEmptyTheTable | internal/adminapi/users_handlers.go:74-90 | the run of four transitions in which two admins delete each other and nobody is left |

## Left out

- Everything under `web/`, `spa.go`, logging, `config`, migrations as such, JSON decoding, cookies, the CSRF header, the login rate limiter and `ExtractBearer`: plumbing without a hard property.
- AWS, GCS, Postgres, bcrypt, SHA-256 and AES-GCM internals: statements are atomic table updates, hashing is injective, encryption is any lawful pair.
- Process crashes and power loss in `Local` (`Put` does not fsync), files in the cache directory that `Put` did not create, and `Exists`, whose answer is the first step of `Put`.
- Listing.List: `os.ReadDir` is one snapshot of the directory, and `start + limit` does not overflow.
- Local.Directory.SysCreateTemp: the random suffix is any unused one.
- AdminListing.HandleListCache: `sort.Slice` is an insertion sort; rows the comparator cannot tell apart may come in another order.
- `Dynamic.Swap` in the middle of a sweep or prune, where a cursor of the old backend would reach the new one: these loops run on one backend. `Retention` and the runs of `Server` do move the storage, between sweeps and between any two transitions.
- Janitor.Janitor.Sweep: other clients upload and record reads but do not delete; their uploads are no older than the cutoffs.
- AdminCache.Admin.PruneOlderThan: other clients do not delete, and their uploads are not older than the cutoff.
- AdminCache.Admin.HandlePrune: uploads by others are not dated before the cutoff, so for day counts whose cutoff wraps into the future no uploads happen meanwhile.
- AdminCache.Admin.HandleBulkDelete: runs alone.
- Retention.RetentionBound: a sweep happens at one instant and does not fail.
- S3.S3.Put: two racing uploads can both succeed, because the check and the write are separate requests; only serial calls are modelled, as are continuation tokens of `List` not at all.
- The GCS backend apart from its key mapping, which is the same code; its `Put` does not compare the copied length with the announced one.
- Settings agreement on who updated the settings and when: `Apply` never sets the author in memory and takes its own clock.
- SettingsRuns.RunStaysValid: `Load` does not validate the row it reads, so validity has to hold at the start.
- SettingsRuns.RestartEquivalence: for runs whose last lost answer is settled; RestartTakesLostRequest says what happens otherwise.
- Retention.InUseSurvives: the storage is not moved between the upload and the sweep; another storage's sweep can clear the read rows of equal hashes.
- Server.Server.HandleGet: the operation on the storage is one transition (the storage protocol covers the interleaving inside it), an upload that the storage reports as failed stores nothing, and interrupted streams are not distinguished.
- ReadCounts.ReadsAreConserved: a recording reported as failed is taken not to have reached the table; that every read row has a stored artifact is false, since a recording can land after a removal.
- Tokens.Store.CreateToken: the name and scope validation of its handler, and the author column.
- Sessions.OneRequestKeepsSound: expiry times do not overflow, and passwords never change.
- `handleChangePassword`, which touches no session, and the lower-casing of emails at creation.
- SessionManager.AdminServer.HandleDeleteUser: the session lookup and the two guards are one transition, the statement another; the other admin handlers are one transition each.
