# Verified models of the Magi control plane

This project models the parts of the Magi governance control plane whose correctness is hard to see
from one function, and proves what they promise, for every input, every interleaving and every crash
point. `dafny verify dfyconfig.toml` checks it (Dafny 4.11).

| files | part of the system |
|---|---|
| `Chain`, `LedgerProtocol`, `LedgerPages` | the hash-chained evidence ledger: chain check, concurrent appends with optimistic retry, cursor pages |
| `Hitl`, `SessionPacks`, `SessionProtocol` | one-shot review decisions under version checks; the active-pack list under row locks and insert collisions |
| `Base64Url`, `Tokens`, `IssueToken` | the token codec, signing and verifying, the issue step |
| `KeyStore`, `KeyRotation`, `ActiveMarker`, `TokenKeys` | key files on disk at every crash point; concurrent rotation, revocation and issue; the race on ACTIVE; which key a client finds |
| `PackStore`, `FloorMigration`, `FloorSafety`, `Backfill` | the pack registry file; the floor migration and the column backfill, with crashes and restarts |
| `Lcs`, `Limiter`, `Fence`, `Metrics` | longest common subsequence, token bucket with idle eviction, fence-tag stripping, histogram buckets |
| `Json`, `Lists` | JSON values, `Option` and duplicate-freeness, shared by the others |

**Form.** Objects that change their fields (`TokenBucketLimiter`, the key store, the pack store, the
migrations) are classes whose methods are specified by functions of the old state; loops are loops
with invariants; protocols that several workers execute together are step relations with an inductive
invariant, and the theorems speak of whole behaviours. What the outside world supplies is a parameter
or a step argument: clock readings, generated keys, row ids, sha256, the JSON text codec, Ed25519.

**Assumptions.** sha256 is *not* assumed injective (no function to 64 hex digits is): chain results say
"equal, or here is a concrete collision". The signature scheme is ideal (a key
and a message verify exactly the signature that key makes for that message, and two keys never make the
same one for a message; `Tokens.IdealExists` shows that this can be met), and the JSON
codec reads back the body at hand, as it wrote it: nothing is asked of other bodies. A fresh ledger
id exceeds every id committed when it was drawn, which allows burnt ids. The limiter's clock does not
run backwards. A crash keeps a prefix of the file operations and commits. Numbers are exact: the
limiter uses reals, not floats.

## Where the code does less than its text says

Each of these is proved; where a promise fails, the lemma gives the exact condition under which it holds.

- Eviction of idle buckets is invisible, and the rate bound holds, exactly when capacity is at most
  refill times 3600 (`Limiter.InvisibleIff`); the deployed 120 and 10 meet it.
- Cross-tenant tampering is called detectable (src/magi_cp/cloud/db.py:67-70), but the digest covers only
  prev, body and token. Of the rewritings that leave these and the digests and keep the keys unique, exactly
  those that keep the order of ids go unnoticed, whatever they do to tenants, subjects and timestamps
  (`Chain.UnnoticedIff`, `Chain.OtherTenant`).
- A token whose `exp` is NaN never expires (`Tokens.ExpiresUnlessNaN`, `Tokens.NaNNeverExpires`).
- A start that dies between creating and writing a legacy key file loses the legacy key at the next start
  (`KeyStore.LegacyKeptIffNoTornWrite`, `KeyStore.TornAdoption`).
- The legacy pair is said to become the active key (src/magi_cp/cloud/keys.py:9-12). It does exactly when no
  start dies between removing the legacy private file and replacing ACTIVE (`KeyStore.LegacyActiveIff`,
  `KeyStore.LegacyPassedOver`).
- Replacing ACTIVE is called atomic (src/magi_cp/cloud/keys.py:153), but all processes share one temporary
  path. With two rotations at once ACTIVE can stay blank, or a rotation fails after its key has become
  active; both are excluded exactly when at most one process is between opening and renaming that file
  (`ActiveMarker.NeverBlankIffOneWriter`, `ActiveMarker.NoFailureIffOneWriter`, `ActiveMarker.RaceBlanks`,
  `ActiveMarker.RaceFails`).
- The service captures its kid at start but signs with the active key, so once that kid is retired its
  tokens verify under no advertised key (`TokenKeys.StaleIffRetired`, `TokenKeys.VerifiesIffKidWasActive`,
  `TokenKeys.RotateThenIssue`).
- activate, deactivate and touch read the row they return after their commit and without the lock. An
  activate returns a list with its pack exactly when its activation, or a later one of that pack, has not
  been dropped by then (`SessionProtocol.PackReturnedIff`, `SessionProtocol.ReturnsWithoutItsPack`).
- SQLite is said to give equivalent safety (src/magi_cp/cloud/db.py:211-212 and 1281-1285). Without row locks
  two workers can lose an update; every behaviour stores its serial row exactly when the database has them
  (`SessionProtocol.SerializableIffLocks`, `SessionProtocol.LosesUpdate`).
- A user pack that already carries the floor's id takes the migrated policies instead of the floor
  (`FloorSafety.CoversIffNoImpostor`, `FloorSafety.ImpostorTakesThePolicies`).
- A comment says a crash can never leave the floor file changed and the tenant unstamped
  (src/magi_cp/cloud/pack_centric_migration.py:200-203). It can exactly when there is a tenant to migrate,
  and the floor is missing or the first pack with its id lacks an enabled policy (`FloorSafety.LagIff`,
  `FloorSafety.FirstBootLags`); the next complete
  boot repairs it (`FloorSafety.CrashesThenRerun`).
- A policy store that does not load counts as having no enabled policy, and the tenants are stamped all the
  same; no later boot repairs it. The floor covers the enabled policies for good exactly when the list of the
  first complete boot and the old members do (`FloorSafety.FirstListDecides`,
  `FloorSafety.UnloadableStoreIsFinal`).
- A second backfill is documented to return 0; it counts rows that have a document id but no matter again
  (`Backfill.SecondRunCounts`, `Backfill.CountedAgain`). The table itself does not change.
- An empty pack id breaks the list and its length (`SessionPacks.CorrectIffNoEmptyId`). This concerns direct
  callers of the repository: the routes refuse such an id (src/magi_cp/cloud/routes/session_pack.py:151-152).
- The histogram's grid may start up to a bucket *after* now - since, so the oldest rows asked for are not
  charted. The whole window is charted exactly when now is no further from the next boundary than the window
  length is from the next multiple of the bucket; for a whole number of buckets, when now is on a boundary
  (`Metrics.WholeWindowIff`, `Metrics.OldRowsDropOut`).

## Model

| member | source | states |
|---|---|---|
| Chain.VerifyChain | src/magi_cp/cloud/db.py:942-960 | the streamed check answers true exactly when every row's prev is the digest of the one before (genesis: "") and its digest is that of prev, body text and token joined by the separator in this order |
| Chain.JoinInjective | src/magi_cp/cloud/db.py:594-597 | the "\|"-joined preimage determines prev, text and token whenever prev and token contain no separator, even if the text does |
| Chain.HeadDeterminesChain | src/magi_cp/cloud/db.py:942-960 | two verified chains with the same final digest have the same length and agree on every prev, body, token and digest, or two of their rows exhibit a collision |
| Chain.MetadataIsNotChained | src/magi_cp/cloud/db.py:594-597 | for every table and every rewriting of its rows that keeps prev, body, token, digest and the order of ids, the check over the table by id answers the same |
| Chain.UnnoticedIff | src/magi_cp/cloud/db.py:942-960 | of the rewritings of a verified table that keep prev, body, token and digests and leave the keys unique, the check misses exactly those that keep the order of ids |
| Chain.OtherTenant | src/magi_cp/cloud/db.py:67-70 | the instance: a ledger of one row, moved to another tenant, still verifies |
| Chain.OrderByIdSorts | src/magi_cp/cloud/db.py:951-952 | ORDER BY id gives a sorted permutation of the table |
| LedgerProtocol.StepKeepsInv | src/magi_cp/cloud/db.py:624-645 | every step of every worker keeps the invariant: linked, increasing ids, one owner per row, each waiting call's tail a past head; and the log only grows |
| LedgerProtocol.ChainAlwaysVerifies | src/magi_cp/cloud/db.py:624-645 | in every reachable state commit order, id order and chain order coincide and the chain check holds |
| LedgerProtocol.AppendOnly | src/magi_cp/cloud/db.py:624-645 | the table of an earlier state is a prefix of the table of any later state |
| LedgerProtocol.RowsMatchCalls | src/magi_cp/cloud/db.py:625-645 | committed calls and rows correspond one to one, and each row carries its call's tenant, subject, body and token |
| LedgerProtocol.StaleTailIsTaken | src/magi_cp/cloud/db.py:89-93 | a pending insert whose prev is free was made against the current head: UNIQUE(prev) alone keeps the chain linear |
| LedgerProtocol.ConflictMeansCommit | src/magi_cp/cloud/db.py:636-642 | a conflict on prev happens only if another row was committed since the tail was read |
| LedgerProtocol.ClashHasCause | src/magi_cp/cloud/db.py:636-642 | an attempt lost while prev was free goes back to an earlier state in which the pending row collided with a stored one |
| LedgerProtocol.GivingUpNeedsRivals | src/magi_cp/cloud/db.py:625-645 | a call that raises was overlapped by at least max_retries commits, all by other calls and since it began, or one of its attempts exhibits a digest collision; otherwise fewer overlapping commits mean success |
| LedgerProtocol.StartIsHonest | src/magi_cp/cloud/db.py:625-645 | the start position used in that count is the length of the table when the call began |
| LedgerProtocol.ClashMeansCollision | src/magi_cp/cloud/db.py:636-642 | a uniqueness error while prev is free exhibits a digest collision with a stored row |
| LedgerPages.MatchesMeans | src/magi_cp/cloud/db.py:687-698 | a row is selected exactly when it is the tenant's and, if a non-empty verifier name is asked for, its step is one of them |
| LedgerPages.MatchingIds | src/magi_cp/cloud/db.py:689-698 | selecting keeps the id order and returns only rows of the table that meet this condition |
| LedgerPages.AdvanceFrom | src/magi_cp/cloud/db.py:687-709 | one page appends exactly the next `limit` matching rows behind the cursor, or all that are left |
| LedgerPages.WalkStands | src/magi_cp/cloud/db.py:668-709 | over growing tables the rows collected so far stay a prefix of the matching rows, with the cursor on the last of them |
| LedgerPages.PaginationIsExact | src/magi_cp/cloud/db.py:668-709 | in every behaviour of the append protocol the rows seen are, once each and in id order, exactly the rows of that tenant up to the cursor with a step asked for; none of another tenant; a short page means no such row was left |
| Hitl.StepKeepsInv | src/magi_cp/cloud/db.py:1033-1066 | each step keeps one winner per decided item, with the row reflecting that winner, and never alters a decided row |
| Hitl.DecisionIsFinal | src/magi_cp/cloud/db.py:1033-1066 | once decided, a row is the same in all later states |
| Hitl.OneWinner | src/magi_cp/cloud/db.py:299-304 | an item is decided exactly when one call won it; status, approver, note and time are that call's, and empty while it is pending |
| Hitl.LosersFail | src/magi_cp/cloud/db.py:1033-1066 | a load or commit on a decided item fails, on a pending one it goes through |
| Hitl.MissingIsNotFound | src/magi_cp/cloud/db.py:1033-1046 | a call ends as not found exactly when its item does not exist, and changes nothing |
| SessionPacks.DedupePackIds | src/magi_cp/cloud/db.py:1225-1244 | the loop keeps the non-empty strings, each at its first occurrence |
| SessionPacks.DedupeMeaning | src/magi_cp/cloud/db.py:1225-1244 | the result has no duplicates, exactly the non-empty ids, in order of first occurrence |
| SessionPacks.ListIsLivePacks | src/magi_cp/cloud/db.py:1383-1497 | the stored list is the packs of the activations not dropped since, oldest first, and as long as changed activates minus changed deactivates |
| SessionPacks.CorrectIffNoEmptyId | src/magi_cp/cloud/db.py:1412-1455 | the histories over a set of pack ids are all correct if and only if the empty id is not in the set |
| SessionPacks.ExpiryFollowsLastChange | src/magi_cp/cloud/db.py:1412-1455 | expires_at is the time of the last changed activate plus thirty days |
| SessionPacks.TimesFollow | src/magi_cp/cloud/db.py:1365-1497 | the row exists once something was activated; last seen is the time of the last operation, activated at that of the first activate |
| SessionProtocol.StepKeepsInv | src/magi_cp/cloud/db.py:1365-1497 | every step keeps: the row is the serial outcome of the log, a lock holder's snapshot is current, every flag is the serial one, every returned row a serial row, at most one collision per call |
| SessionProtocol.Serializable | src/magi_cp/cloud/db.py:1365-1497 | every interleaving equals the serial history in commit order: stored row and changed flags; each returned row is the serial row of a moment between the call's commit and its return |
| SessionProtocol.OwnRowIff | src/magi_cp/cloud/db.py:1452-1455 | the refresh reads the log of that moment; when no other operation committed in between, row and flag are what the call computed |
| SessionProtocol.PackReturnedIff | src/magi_cp/cloud/db.py:1437-1455 | an activate returns a list with its pack if and only if, when it reads the row back, its own or a later activation of the pack has not been dropped |
| SessionProtocol.ReturnsWithoutItsPack | src/magi_cp/cloud/db.py:1433-1435 | the failing case: a changed activate returns an empty list because a deactivate committed in between |
| SessionProtocol.SerializableIffLocks | src/magi_cp/cloud/db.py:1302-1316 | every behaviour stores the row of its serial history if and only if the database has row locks |
| SessionProtocol.LosesUpdate | src/magi_cp/cloud/db.py:1275-1285 | the failing case: two activates on a plain read both commit, and the first one's pack is gone |
| SessionProtocol.NoLostUpdate | src/magi_cp/cloud/db.py:1383-1497 | in every reachable state the list is the live packs in activation order, without duplicates, with the counted length |
| SessionProtocol.RetryBudgetNeverSpent | src/magi_cp/cloud/db.py:1407-1458 | an activate meets at most one insert collision, so the final raise is unreachable |
| Base64Url.EncodeShape | src/magi_cp/evidence/tokens.py:17-18 | the encoding uses the URL alphabet only, and the decoder's padding rule restores the padded form |
| Base64Url.ScanPadded | src/magi_cp/evidence/tokens.py:21-23 | the lenient scanner reads the padded form of any bytes back, after any earlier output |
| Base64Url.RoundTrip | src/magi_cp/evidence/tokens.py:17-23 | decoding inverts encoding on every byte string |
| Base64Url.Alphabet | src/magi_cp/evidence/tokens.py:17-23 | the 64 characters are those of section 5 of RFC 4648, in order, and the reader also takes the two of section 4 |
| Base64Url.EncodeBits | src/magi_cp/evidence/tokens.py:17-18 | every three bytes become four characters carrying the same 24 bits, most significant first |
| Base64Url.EncodeTail | src/magi_cp/evidence/tokens.py:17-18 | behind the whole groups come the one or two bytes left over, with zero spare bits, and nothing else |
| Tokens.SplitOnce | src/magi_cp/evidence/tokens.py:41-45 | splitting a dot-joined pair of dot-free parts gives exactly these two |
| Tokens.TokenShape | src/magi_cp/evidence/tokens.py:30-33 | a signed token splits into exactly its two encoded parts and never contains the ledger's separator |
| Tokens.VerifySigned | src/magi_cp/evidence/tokens.py:36-56 | for every body the codec reads back, key pair and time: the body back exactly when the keys agree, exp is numeric and not reached; a refusal otherwise |
| Tokens.ExpiresUnlessNaN | src/magi_cp/evidence/tokens.py:50-56 | "accepted exactly while now < exp" holds at every moment if and only if exp is not NaN |
| Tokens.NaNNeverExpires | src/magi_cp/evidence/tokens.py:50-56 | the instance: a signed body with exp NaN is accepted at every moment |
| Tokens.AcceptedWasSigned | src/magi_cp/evidence/tokens.py:36-56 | for any string: a body is accepted exactly when there are two parts, the second decodes to the key's signature of the first, that payload parses to the body and its exp is a number not reached |
| Tokens.RaisesIff | src/magi_cp/evidence/tokens.py:41-48 | an error escapes exactly for a well-formed token signed by the key whose payload is no JSON object; malformed ones are refused |
| Tokens.ExpTable | src/magi_cp/evidence/tokens.py:50-56 | acceptance for every kind of exp value: integer, boolean, float, infinities, NaN, anything else, absent |
| IssueToken.IssuedBody | src/magi_cp/cloud/serialization.py:186-220 | a clash is reported exactly when a caller field is protected, and names those; otherwise each of the eight stamped fields has its claim (exp = iat + 600), the caller's fields are kept, and the ledger body adds only fields the signed body lacks |
| IssueToken.IssuedVerifies | src/magi_cp/cloud/serialization.py:186-220 | an issued token verifies under its signing key exactly for 600 seconds after the stamp, under no other key |
| KeyStore.Store.WriteKeypair | src/magi_cp/cloud/keys.py:125-150 | afterwards both files exist, existing ones as they were, new ones with their key |
| KeyStore.Store.MigrateLegacy | src/magi_cp/cloud/keys.py:111-123 | the pair is in its directory, both legacy files are gone and ACTIVE names it; as the operation list a crash may cut |
| KeyStore.Store.EnsureKeypair | src/magi_cp/cloud/keys.py:93-109 | adopts, keeps or mints: the resulting directory of each case; as the operation list a crash may cut |
| KeyStore.Store.Rotate | src/magi_cp/cloud/keys.py:217-221 | the new pair exists and ACTIVE names it; nothing else changed |
| KeyStore.Store.Revoke | src/magi_cp/cloud/keys.py:223-240 | refuses without an active key or on the active one, else exactly the two files of the key are gone |
| KeyStore.AdoptionStage | src/magi_cp/cloud/keys.py:111-156 | the exact disk after any number of operations of an adoption, from any partly adopted start |
| KeyStore.MintStage | src/magi_cp/cloud/keys.py:125-156 | the exact disk after any number of operations that mint an unused key |
| KeyStore.LegacyKeptIffNoTornWrite | src/magi_cp/cloud/keys.py:93-150 | after any history of crashed starts and one complete start, the legacy pair is readable if and only if no start died between creating and writing one of its files |
| KeyStore.TornAdoption | src/magi_cp/cloud/keys.py:93-150 | the failing case: ACTIVE names a key with an empty private file and the legacy files are gone |
| KeyStore.LegacyActiveIff | src/magi_cp/cloud/keys.py:111-123 | after any history of crashed starts and one complete start, ACTIVE names the legacy key if and only if no start died between removing the legacy private file and replacing ACTIVE |
| KeyStore.LegacyPassedOver | src/magi_cp/cloud/keys.py:111-123 | the failing case: the next start mints and activates another key while the legacy pair lies complete in its directory |
| KeyStore.ActiveStaysComplete | src/magi_cp/cloud/keys.py:93-156 | at every crash point of one process's rotate, revoke and start-up ACTIVE names a complete pair |
| KeyRotation.StepKeepsInv | src/magi_cp/cloud/keys.py:125-156 | every file operation of any number of processes, including opening, writing and renaming the shared temporary file, every start, death and issue keeps the invariant: live markers name usable keys, retired keys never return |
| KeyRotation.ActiveBlankOrComplete | src/magi_cp/cloud/keys.py:152-162 | in every interleaving ACTIVE is blank or names a complete, advertised pair |
| KeyRotation.RevokedIsGone | src/magi_cp/cloud/keys.py:223-240 | in every interleaving a completed revocation leaves neither file of its key, then and in all later states, and the key is never advertised again |
| ActiveMarker.NeverBlankIffOneWriter | src/magi_cp/cloud/keys.py:152-156 | ACTIVE always names a complete pair in the behaviours with at most n processes between opening and renaming the temporary file, if and only if n is at most one |
| ActiveMarker.NoFailureIffOneWriter | src/magi_cp/cloud/keys.py:152-156 | in the same behaviours no rotation fails at its rename, if and only if n is at most one |
| ActiveMarker.RaceBlanks | src/magi_cp/cloud/keys.py:152-156 | the failing case: written, truncated by another, renamed, the other dies; ACTIVE is blank with no process left |
| ActiveMarker.RaceFails | src/magi_cp/cloud/keys.py:152-156 | the other failing case: the second process writes into ACTIVE itself and its rename finds no file |
| TokenKeys.SignerStaysAdvertised | src/magi_cp/cli/keys.py:3-12 | in every interleaving, revoking only 600 s after retirement keeps every unexpired token's signing key complete and advertised |
| TokenKeys.StaleIffRetired | src/magi_cp/cloud/app.py:240-242 | a token names another kid than its signer's exactly when the kid the service captured at its start has been retired since |
| TokenKeys.RotateThenIssue | src/magi_cp/cloud/app.py:240-242 | the failing case: start, rotate, issue gives a token with the old kid and the new key's signature |
| TokenKeys.VerifiesIffKidWasActive | src/magi_cp/cloud/serialization.py:187-220 | an unexpired token verifies under the key advertised for the kid in its body if and only if that kid was the active one at issue |
| PackStore.Store.Load | src/magi_cp/cloud/pack_store.py:58-106 | succeeds exactly on a missing file or a list of items with the needed keys, prefixed ids and at most one floor, and returns them in order, field by field |
| PackStore.Store.Save | src/magi_cp/cloud/pack_store.py:108-157 | refused exactly on two floors, with the file untouched; otherwise the file loads if and only if all ids are prefixed, to a permutation of the rows sorted by id in which rows of one id keep their order |
| PackStore.SortSorts | src/magi_cp/cloud/pack_store.py:108-157 | the written order is sorted by id |
| PackStore.StrLeMeans | src/magi_cp/cloud/pack_store.py:108-157 | the order of ids is lexicographic by code point |
| PackStore.SortMembers | src/magi_cp/cloud/pack_store.py:108-157 | the written rows are a permutation of the given ones |
| PackStore.SortStable | src/magi_cp/cloud/pack_store.py:108-157 | sorting is stable: the rows of one id keep their order |
| PackStore.SaveLoad | src/magi_cp/cloud/pack_store.py:58-157 | a written file loads if and only if every id is prefixed, and then gives the same rows, sorted and stable |
| FloorMigration.EnabledPolicyIds | src/magi_cp/cloud/pack_centric_migration.py:70-96 | exactly the enabled ids, without duplicates, in first-seen order; none when the store does not load |
| FloorMigration.FindTarget | src/magi_cp/cloud/pack_centric_migration.py:116-120 | the first row that carries the floor's id or the floor flag |
| FloorMigration.AppendAbsent | src/magi_cp/cloud/pack_centric_migration.py:123-127 | the enabled ids that are no members, once each and in the order of the list, appended behind the members |
| FloorMigration.Migration.EnsureFloorPack | src/magi_cp/policy/floor_pack.py:60-102 | afterwards the file has a floor with the returned id; an existing floor leaves the file alone, else the empty one joins the sorted rows |
| FloorMigration.Migration.PopulateFloor | src/magi_cp/cloud/pack_centric_migration.py:99-130 | the file becomes the populated one, or stays when the store does not load |
| FloorMigration.Migration.Migrate | src/magi_cp/cloud/pack_centric_migration.py:133-213 | the uninterrupted boot: file, stamps and the returned tenant ids; a store that does not load changes nothing |
| FloorSafety.BootStamps | src/magi_cp/cloud/pack_centric_migration.py:160-213 | an empty table gets the tenant "default"; each unstamped tenant gets this boot's time, the others keep theirs; the ids returned are those of the unstamped ones in order |
| FloorSafety.MigratedIsStable | src/magi_cp/cloud/pack_centric_migration.py:99-130 | a second pass over the file changes nothing, from the start or from the middle |
| FloorSafety.CoversIffNoImpostor | src/magi_cp/cloud/pack_centric_migration.py:114-130 | every enabled policy ends in the floor, whatever they are, if and only if no ordinary pack carries the floor's id ahead of it |
| FloorSafety.ImpostorTakesThePolicies | src/magi_cp/cloud/pack_centric_migration.py:114-130 | the failing case: the ordinary pack gets the policy, the new floor stays empty |
| FloorSafety.MembersKept | src/magi_cp/cloud/pack_centric_migration.py:99-130 | no row and no member is lost, and there is at most one floor |
| FloorSafety.TraceStates | src/magi_cp/cloud/pack_centric_migration.py:198-213 | every state a crash can leave: stamps only with the file fully migrated, no stamp lost |
| FloorSafety.CrashThenRerun | src/magi_cp/cloud/pack_centric_migration.py:154-213 | from any crash point one complete boot gives the same file and fully stamped tenants as an uninterrupted one, and a further boot does nothing |
| FloorSafety.CrashesThenRerun | src/magi_cp/cloud/pack_centric_migration.py:154-213 | the same after any number of crashed boots, each dying anywhere, with no stamp lost |
| FloorSafety.LagIff | src/magi_cp/cloud/pack_centric_migration.py:198-213 | some crash point leaves the file changed with nobody stamped if and only if a tenant is pending, and the floor is missing or the first pack with its id lacks an enabled policy |
| FloorSafety.FirstBootLags | src/magi_cp/cloud/pack_centric_migration.py:198-213 | the instance: the first boot of a new installation, after creating the floor |
| FloorSafety.StampMeansCovered | src/magi_cp/cloud/pack_centric_migration.py:198-213 | at no crash point is a tenant stamped before every enabled policy is in the floor (given no impostor) |
| FloorSafety.FirstListDecides | src/magi_cp/cloud/pack_centric_migration.py:70-86 | the first complete boot stamps everybody and no later one changes anything; the floor covers the enabled policies if and only if its list or the old members do (given no impostor) |
| FloorSafety.UnloadableStoreIsFinal | src/magi_cp/cloud/pack_centric_migration.py:78-86 | the failing case: the policy store does not load at the first boot, and the floor stays empty for good |
| Backfill.Database.FillPage | scripts/migrate_pr3_backfill.py:96-141 | one chunk moves the watermark; up to it every row without subject has matter and document id copied field by field, the others are unchanged; the writes are counted |
| Backfill.Database.BackfillHitl | scripts/migrate_pr3_backfill.py:73-144 | for every chunk size from 1 the scan ends; every row without subject and with a non-empty matter or document id has both copied (empty as NULL), every other row is unchanged; the result counts the written rows; the schema cases |
| Backfill.RerunAfterCrash | scripts/migrate_pr3_backfill.py:90-144 | restarting after any chunk, or after the end, leads to the same table |
| Backfill.SecondRunCounts | scripts/migrate_pr3_backfill.py:54-58 | a second pass returns 0 if and only if no row has a document id but an empty matter |
| Backfill.CountedAgain | scripts/migrate_pr3_backfill.py:124-137 | the instance: a row with a document id and an empty matter is counted by every pass |
| Backfill.RunPlan | scripts/migrate_pr4_drop_legacy.py:183-195 | every planned step gets the outcome, the others keep theirs |
| Backfill.Plan | scripts/migrate_pr4_drop_legacy.py:159-181 | the planned steps are exactly the due ones, the others are already applied |
| Backfill.Database.DropLegacyColumns | scripts/migrate_pr4_drop_legacy.py:94-198 | refused exactly without table, without subject column or with NULL subjects (and how many); else the outcome of each step, and, unless it is a dry run, the legacy columns and index gone with the canonical keys kept |
| Backfill.DropAllowedIff | scripts/migrate_pr4_drop_legacy.py:94-126 | after the backfill the drop proceeds if and only if every row already had a subject or has a non-empty matter |
| Backfill.KeysSurvive | scripts/migrate_pr4_drop_legacy.py:129-198 | after backfill and drop a row without subject carries its non-empty matter and document id as canonical keys, and a row with one keeps its own |
| Backfill.DropIsIdempotent | scripts/migrate_pr4_drop_legacy.py:129-198 | dropping keeps the canonical keys, and a second drop finds every step applied |
| Lcs.LcsLen | web/lib/payload-schemas.ts:634-653 | the one-row in-place program returns the longest-common-subsequence length: some common subsequence has it, none is longer |
| Lcs.TableIsLcs | web/lib/payload-schemas.ts:634-653 | the textbook recursion is that length, where a subsequence is an increasing embedding |
| Limiter.TokenBucketLimiter.EvictStale | src/magi_cp/cloud/middleware.py:77-83 | above 10000 buckets exactly those idle for more than an hour go |
| Limiter.TokenBucketLimiter.Dispatch | src/magi_cp/cloud/middleware.py:85-104 | two paths are free; otherwise the peer's bucket has min(capacity, tokens + seconds × refill), a new or forgotten one the capacity, and the request passes exactly when that is at least one and then costs one; other buckets change only by eviction |
| Limiter.StoredTokensInRange | src/magi_cp/cloud/middleware.py:98-103 | stored tokens stay within 0..capacity in every history, with or without eviction |
| Limiter.Conserved | src/magi_cp/cloud/middleware.py:98-103 | admissions since a request plus tokens left never exceed the tokens then plus refill × the seconds since |
| Limiter.SimAlong | src/magi_cp/cloud/middleware.py:77-104 | the evicting limiter agrees with the plain one up to full buckets and decides alike, at every request of every history |
| Limiter.FloodExceeds | src/magi_cp/cloud/middleware.py:77-104 | when an hour and a bit does not refill a bucket, a concrete flood is decided differently and breaks the rate bound |
| Limiter.InvisibleIff | src/magi_cp/cloud/middleware.py:66-104 | eviction changes no decision, and every window of length T admits at most capacity + refill × T, each if and only if capacity is at most refill × 3600 |
| Limiter.DeployedLimiter | src/magi_cp/cloud/app.py:262 | the deployed 120 and 10 have both properties |
| Fence.MatchIsTag | src/magi_cp/cloud/nl_compiler.py:53 | what the greedy matcher takes is a tag of the grammar |
| Fence.TagIsMatched | src/magi_cp/cloud/nl_compiler.py:53 | every tag at the start is matched with its own length: the grammar is unambiguous |
| Fence.AnyCaseIsStripped | src/magi_cp/cloud/nl_compiler.py:53 | opening or closing, with blanks, the keyword in any case and any word characters or hyphens: it is a tag and is stripped |
| Fence.StrippedIsTagFree | src/magi_cp/cloud/nl_compiler.py:73 | stripped text has no substring in the tag grammar |
| Fence.TagFreeUnchanged | src/magi_cp/cloud/nl_compiler.py:73 | tag-free text is left alone |
| Fence.StripIdempotent | src/magi_cp/cloud/nl_compiler.py:73 | stripping twice is stripping once |
| Fence.OnlyTagsReplaced | src/magi_cp/cloud/nl_compiler.py:73 | the text is a weave of gaps and tags, the output the same weave with every tag replaced |
| Fence.ExactlyTwoTags | src/magi_cp/cloud/nl_compiler.py:66-74 | with a hex nonce the fenced text is the opening tag, the stripped text and the closing tag on lines of their own, and contains exactly these two tags |
| Metrics.NormalizeMeaning | src/magi_cp/cloud/metrics.py:151-179 | accepted parameters are sane, exactly sane ones pass unchanged, others are only clamped, non-positive ones count as absent |
| Metrics.Aggregate | src/magi_cp/cloud/metrics.py:201-262 | every bucket holds exactly the number of the tenant's rows in its interval, in total, by action and by verdict |
| Metrics.BucketMeans | src/magi_cp/cloud/metrics.py:95-118 | these counts are cardinalities of row positions, with "deny" counted as "fail", "review" as "needs_review", and only the six actions and four verdicts |
| Metrics.GridShape | src/magi_cp/cloud/metrics.py:203-220 | 1 to 744 adjoining buckets on multiples of the width, ending at the first boundary from now on, starting less than one bucket from now - since |
| Metrics.WholeWindowIff | src/magi_cp/cloud/metrics.py:203-234 | every row of the requested window is queried if and only if now is no further from the next boundary than the window length from the next multiple of the bucket |
| Metrics.OldRowsDropOut | src/magi_cp/cloud/metrics.py:203-234 | the failing case: the default chart opened at 14:23 misses a row from within its 24 hours |
| Metrics.ExactlyOneBucket | src/magi_cp/cloud/metrics.py:237-250 | a queried row is in exactly one bucket, except ts = now on a boundary, which is in none |
| Metrics.TotalsAddUp | src/magi_cp/cloud/metrics.py:223-262 | bucket totals sum to the queried rows off that edge |

## Left out

- The HTTP routes, authentication, request schemas, model and CLI clients, the dashboard and its catalogs: plumbing and finite tables.
- The policy compiler, verifiers, precedence rules and the event/matcher table: not needed by any property here.
- sha256, Ed25519 and JSON text: parameters with the stated laws, not implementations.
- LedgerProtocol.StepKeepsInv: does not model the in-process lock around appends, which only removes interleavings, nor an isolation level that would hide committed rows from the tail read.
- LedgerPages.PaginationIsExact: does not cover the dialects that filter after LIMIT, nor step filters on values other than strings.
- SessionProtocol.Serializable: models one session row (rows of different keys do not interact), with `SerializableIffLocks` for those without row locks, where a read belongs to no transaction (the driver opens one at the first write); `touch` is one step, although it reads without a lock, which matters only for a row that already holds duplicates; the healing in `get` is left out.
- KeyStore.LegacyKeptIffNoTornWrite: models process crashes; a partial write within one file, power loss that reorders writes, and file modes are not modelled.
- KeyRotation.StepKeepsInv: starts after the first key exists; minted key ids are new and of one length, so that a second write to a marker file replaces the first; a start that finds ACTIVE blank mints, which is a rotation here.
- KeyStore.ActiveStaysComplete: one process at a time, where replacing ACTIVE is one operation; a leftover temporary file is never read.
- TokenKeys.StaleIffRetired: reading the clock, ACTIVE and the private key is one step of an issue.
- PackStore.Store.Load: the conversions of list items to strings are taken as done; which error a bad item raises is not distinguished.
- FloorMigration.Migration.Migrate: leaves out the floor's description text, the audit entry and the log line written after the stamps, and the call without a pack store.
- FloorSafety.CrashesThenRerun: boots follow one another (workers migrating at the same moment are not modelled) and the enabled policies are the same on all of them; `FirstListDecides` says what a differing list does.
- Backfill.Database.DropLegacyColumns: the schema changes are one transaction; the SQL text in the report is not modelled.
- Limiter.InvisibleIff: real arithmetic, so float rounding of token amounts is not modelled.
- Fence.TagIsMatched: `\w` is any character class without spaces and markup characters that has the hex digits; the keyword's case folding is the one of its nine letters.
- The file-based evidence ledger and its tail read: the chain is covered through the database ledger.
