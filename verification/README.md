# wicket-pg, modelled and verified in Dafny

wicket-pg keeps the state of an identity server in PostgreSQL: tokens, sessions, grants, device
codes, backchannel requests and signing keys, each in a table of its own, with a migration runner
that creates those tables. What is hard in it is not any single SQL statement but what holds over
*sequences* of them, issued by any number of callers at once.

**The one idealisation.** One SQL statement is one atomic step on an explicit table, and a migration
transaction is one atomic step at its commit: it happens entirely or not at all. Every interleaving
of any number of callers is therefore a sequence of statements, and a theorem over all such sequences
is a theorem over all interleavings. A Go method that issues two statements takes the statements of
other callers in between as a parameter (`others`); its statements may be refused or carried out without
an answer (`fate`, `lost`), and a scan may break off after some rows (`broken`). Methods of the store classes follow the Go methods statement by statement and are proved
against the specification functions (`Exec`, `Promise`, `UpAll`, ...) the lemmas are about.

## Modules

| module | models |
|---|---|
| `Prelude`, `Time`, `Reclaim` | outcomes and the payload column; int64 nanoseconds, rounding to microseconds; what deleting expired rows keeps |
| `VersionHistory`, `GuardedUpdates` | version counters of any table whose changes are insert, guarded bump and removal; clients that read, modify and write back under the version they read |
| `RefreshTokens`, `KeyRecords` | the two stores with optimistic concurrency |
| `Sessions`, `PersistedGrants`, `DeviceFlow`, `Backchannel`, `ReferenceTokens` | the stores whose columns have to agree with the payload |
| `GrantFilter`, `Digits` | the WHERE clause compiler, with a parser and an evaluator for what it writes |
| `Base64`, `Envelope`, `Codec` | the payload codec: section 4 of RFC 4648 inside a JSON object (sections 4 and 7 of RFC 8259), stored as jsonb |
| `Ddl`, `Schema` | DDL statements on an explicit schema; the six real scripts |
| `FileOrder`, `Migrations`, `EmbeddedFiles`, `ConcurrentUp` | file order, the runner, the real file names, and any number of runners at once |

## What was found on the way

Properties that do not hold as one would first state them come with a concrete run and with the exact
condition under which they do hold.

- A version guard does not survive removal and re-creation of a handle (`RefreshTokens.RecreationDefeatsTheGuard`);
  `RefreshTokens.StaleCopyWinsExactlyWhen` says exactly when an old copy overwrites the new record.
- The two statements of a failed update are not one: a conflict can be reported on the very version that
  was expected (`KeyRecords.ConflictOnTheExpectedVersion`); `VersionHistory.FailedUpdateLinearizes` says exactly when.
- Scan-then-delete revocation deletes a handle that was re-used for another subject meanwhile
  (`ReferenceTokens.ReusedHandleIsLost`); `ReferenceTokens.RevocationAtomicExactlyWhen` says exactly when it acts like
  one step at its delete, `ReferenceTokens.OneStepAtTheScanExactlyWhen` exactly when like one step at its scan.
- `UpdateSession` replaces the client ids that were appended since the caller read the session (`Sessions.UpdateReplacesAppends`);
  `Sessions.AppendSurvivesExactlyWhen` says exactly which appends survive a run.
- A lifetime of 9223372037 seconds makes the expiry lie before the creation (`Time.LifetimeExpiryWraps`);
  `Time.LifetimeExpiryExact` gives the exact range.
- The comment in `migrations/000001_init.down.sql` promises strict mirror order. The index drops are not in
  mirror order; the effect is the same on every database (`Schema.InitDownIsNoStrictMirror`). The model follows the script.
- `Down` on a database where `Up` failed before its first file leaves the bookkeeping table behind
  (`Migrations.BookStaysBehind`); `Migrations.DownLeavesNothingExactlyWhen` gives the exact condition.
- Whole-name order is version order only without misleading names, so `1_a` and `10_b` sort the wrong way round
  (`FileOrder.UnequalLengthsMislead`); `FileOrder.NameOrderIsVersionOrderExactly` gives the exact condition.

## Model

| member | source | states |
|---|---|---|
| `GuardedUpdates.NoLostUpdates` | store/refresh_token.go:64-116 | on every table whose versions are guarded, for any number of clients running get, modify, update with the version read, in any interleaving, with any answers lost: as long as the handle stays, the stored record is the first one with exactly the winning modifications applied one after another, its version has risen by their number, and every copy a client holds is the first few of them applied |
| `GuardedUpdates.PutReplays` | store/refresh_token.go:87-105 | one winning update extends the replayed history by exactly its own modification, applied to the value the previous winner stored |
| `GuardedUpdates.StaleCopy` | store/key_records.go:109-116 | a record read at one moment, used at a later one: its version matches exactly when the incarnation then stored has had as many updates, and without an insertion in between a match means that what is stored is what was read |
| `RefreshTokens.GuardIsSound` | store/refresh_token.go:64-105 | refresh tokens are such a table |
| `RefreshTokens.NoLostUpdates` | store/refresh_token.go:64-116 | no update of a refresh token is lost: the stored token is each winning modification applied to what its predecessor left, the adapter changing the version alone |
| `RefreshTokens.ReplayIsComposition` | store/refresh_token.go:88-97 | the replay by stored records is that composition of modifications |
| `RefreshTokens.StaleCopyWinsExactlyWhen` | store/refresh_token.go:94-105 | over every run from the empty table, for a copy read at `i` and written back at `j`: the update goes through if and only if the stored incarnation has had version - 1 updates; it replaces something other than what was read only if the handle was created in between, so a caller who never re-creates a handle is safe; and what it overwrites carries the version that was read, so the guard cannot tell |
| `RefreshTokens.RecreationDefeatsTheGuard` | store/refresh_token.go:95-97 | a run, by that condition, in which the copy of a removed token overwrites the re-created one |
| `RefreshTokens.RunKeepsConsistent` | store/refresh_token.go:41-105 | in every reachable state the version column equals the payload's version, lies within 1..2^63-1, and the expiry column is the one derived from the current payload |
| `RefreshTokens.VersionAccounting` | store/refresh_token.go:49-50 | in every reachable state the version is one more than the number of successful updates since insertion |
| `RefreshTokens.SingleWinner` | store/refresh_token.go:95-105 | two successful updates with one expected version have an insertion of the handle between them |
| `RefreshTokens.PresentMeansInserted` | store/refresh_token.go:106-109 | a handle absent at the UPDATE and present at the re-check was inserted in between |
| `RefreshTokens.ConflictMeansOtherVersion` | store/refresh_token.go:95-115 | without such an insertion, a conflict means the row existed at the UPDATE with another version |
| `RefreshTokens.FailedUpdateLinearizes` | store/refresh_token.go:95-115 | the reported answer was right at some moment between the two statements if and only if the update did not expect version 1 of a handle that was absent at the UPDATE, inserted meanwhile and not updated since |
| `RefreshTokens.MachineIsHonest` | store/refresh_token.go:41-141 | every statement changes versions only by insertion at 1 of an absent handle, by a bump of the expected version, or by removal |
| `RefreshTokens.ReclaimNeverEarly` | store/refresh_token.go:134-141 | a reclaimed token's stored expiry lies strictly before the cutoff, and so does its creation time plus lifetime wherever the int64 product is exact |
| `RefreshTokens.ReclaimExact` | store/refresh_token.go:134-141 | by exact times: a token whose creation time plus lifetime lies a microsecond or more before the cutoff goes, one at or after it stays as it is |
| `RefreshTokens.RefreshTokenStore.StoreRefreshToken` | store/refresh_token.go:41-58 | insert-only: duplicate exactly when the handle exists; afterwards the handle reads back as the caller's token at version 1, every other row is as before, and the caller's token is untouched on failure |
| `RefreshTokens.RefreshTokenStore.GetRefreshToken` | store/refresh_token.go:64-77 | the decoded record, the missing sentinel, or an error on a payload that does not decode |
| `RefreshTokens.RefreshTokenStore.UpdateRefreshToken` | store/refresh_token.go:87-116 | both statements, the first answered, refused or carried out without an answer, with other callers in between: which outcome, which table and which caller version, for each branch, both directions; on success the handle reads back as the caller's whole token with the next version, and every other row is as before |
| `RefreshTokens.RefreshTokenStore.RemoveRefreshToken` | store/refresh_token.go:120-128 | removal, a no-op on a missing handle |
| `RefreshTokens.RefreshTokenStore.RemoveExpired` | store/refresh_token.go:134-141 | exactly the rows strictly below the cutoff go, and the count is the difference in rows |
| `VersionHistory.VersionCountsUpdates` | store/key_records.go:71-118 | for any such table: version = 1 + updates since insertion, over every run |
| `VersionHistory.VersionNeverFalls` | store/key_records.go:109-111 | without an insertion in between a version never falls |
| `VersionHistory.SingleWinner` | store/key_records.go:109-116 | for any such table: one winner per expected version and incarnation |
| `VersionHistory.SameVersionMeansUntouched` | store/key_records.go:109-111 | without an insertion in between, an unchanged version means that no statement touched the handle |
| `VersionHistory.PresentMeansInserted` | store/key_records.go:120-123 | for any such table: a handle absent at the UPDATE and present at the re-check was inserted in between |
| `VersionHistory.ConflictMeansOtherVersion` | store/key_records.go:109-129 | for any such table: without such an insertion, a conflict means another version at the UPDATE |
| `VersionHistory.FailedUpdateLinearizes` | store/key_records.go:109-129 | for any such table: there is a moment between the two statements at which the reported answer was the right one for a single atomic check, if and only if the update did not expect version 1 of a handle that was absent at the UPDATE, inserted meanwhile and not updated since |
| `KeyRecords.RunKeepsInvariant` | migrations/000001_init.up.sql:74-104 | over all runs: at most one non-retired row per public id, and handle, public id, phase and version columns equal the payload's fields, the version within 1..2^63-1 |
| `KeyRecords.VersionAccounting` | store/key_records.go:71-118 | version = 1 + successful updates since insertion |
| `KeyRecords.SingleWinner` | store/key_records.go:97-119 | one winner per expected version and incarnation |
| `KeyRecords.MachineIsHonest` | store/key_records.go:71-147 | every statement is insertion at 1, a bump of the expected version below 2^63-1, or removal |
| `KeyRecords.PresentMeansInserted` | store/key_records.go:120-123 | a handle absent at the UPDATE and present at the re-check was inserted in between |
| `KeyRecords.ConflictMeansOtherVersion` | store/key_records.go:109-129 | without such an insertion, a conflict means the row existed at the UPDATE with another version |
| `KeyRecords.FailedUpdateLinearizes` | store/key_records.go:109-129 | that condition in terms of the statements on key records |
| `KeyRecords.GuardIsSound` | store/key_records.go:42-119 | key records are a table of guarded updates |
| `KeyRecords.NoLostUpdates` | store/key_records.go:42-119 | no update of a key record is lost: the stored record is each winning modification applied to what its predecessor left, the adapter changing the version alone |
| `KeyRecords.ReplayIsComposition` | store/key_records.go:103-111 | the replay by stored records is that composition of modifications |
| `KeyRecords.StaleCopyWinsExactlyWhen` | store/key_records.go:97-119 | a copy read at `i` and written back at `j` goes through if and only if no other live row clashes and the stored incarnation has had version - 1 updates; it replaces something other than what was read only if the handle was created in between |
| `KeyRecords.ConflictOnTheExpectedVersion` | store/key_records.go:120-129 | the run that shows the exception: conflict reported although the row that is there has the expected version, and no moment at which a conflict was right |
| `KeyRecords.KeyRecordStore.Get` | store/key_records.go:42-62 | the decoded record; missing and canceled give the missing sentinel; an undecodable payload is an error |
| `KeyRecords.KeyRecordStore.Create` | store/key_records.go:71-87 | duplicate exactly when the handle exists or the record is not retired and another row, not retired, has its public id; on success the record reads back at version 1 and its columns carry its fields; nothing changed on failure |
| `KeyRecords.KeyRecordStore.Update` | store/key_records.go:97-130 | range guard, guarded UPDATE (answered, refused or carried out without an answer) and re-check with other callers in between: outcome, table and caller version of every branch, both directions; with a matching version it is a duplicate exactly when the record is not retired and another row, not retired, has its public id, and else goes through and reads back whole with the next version |
| `KeyRecords.KeyRecordStore.Delete` | store/key_records.go:136-147 | removal; a missing handle is reported |
| `KeyRecords.KeyRecordStore.List` | store/key_records.go:152-176 | every record exactly once, or failure exactly when some payload does not decode or the scan breaks off |
| `Sessions.StepRefines` | store/session.go:41-206 | every statement keeps the columns in agreement with the payload (payload client ids a prefix of the column, subject NULL iff empty, expires NULL iff zero) and does to the decoded map, with ClientIDs taken from the column, what the port promises |
| `Sessions.RunRefines` | store/session.go:41-206 | so does every run |
| `Sessions.SubjectQueryExact` | store/session.go:138-140 | a query by subject hits exactly that subject's records, and the empty subject hits none |
| `Sessions.ReclaimNeverEarly` | store/session.go:199-206 | a reclaimed session has a non-zero expiry strictly before the cutoff |
| `Sessions.ReclaimExact` | store/session.go:199-206 | by exact times: a session whose expiry lies a microsecond or more before the cutoff goes, one at or after it, or with none, stays as it is |
| `Sessions.ColumnExactly` | store/session.go:73-192 | over every run of any statements: the column is the list the last create or update of the id wrote, followed by each client id appended since and not in it, exactly once |
| `Sessions.LaterHoldsNoReplacement` | store/session.go:113-115 | after the statement that counts as last there is no create or update that takes effect on the id |
| `Sessions.LaterStartsAtAReplacement` | store/session.go:113-115 | and that statement is one |
| `Sessions.AppendSurvivesExactlyWhen` | store/session.go:113-115 | over every run: an appended id is there at the end if and only if nobody replaced the record after it, or the last who did wrote the id, or somebody appended it again after that |
| `Sessions.AppendsConfluent` | store/session.go:183-192 | after any interleaving of appends on one existing session, among any other statements that do not update or delete it, the column is the original list followed by each new id exactly once |
| `Sessions.NoDuplicatesEver` | store/session.go:183-192 | if the records given to create and update hold no client id twice, no column ever does, over every run |
| `Sessions.AppendsCollectEverything` | store/session.go:183-192 | as a set the column is the original and everything added; a list without duplicates stays without |
| `Sessions.InterleavingsAgree` | store/session.go:180-186 | two interleavings of the same appends end in the same client ids, up to order |
| `Sessions.UpdateReplacesAppends` | store/session.go:113-115 | the shortest run in which an append is lost: the id survives only in the writer's own list |
| `Sessions.SessionStore.GetSession` | store/session.go:41-65 | the record with ClientIDs from the column; missing and canceled give the missing sentinel |
| `Sessions.SessionStore.CreateSession` | store/session.go:73-94 | insert-only: the record is added as it is, with no list read back as the empty one |
| `Sessions.SessionStore.UpdateSession` | store/session.go:100-121 | whole replacement, with no list read back as the empty one; a no-op on a missing id |
| `Sessions.SessionStore.DeleteSession` | store/session.go:125-133 | removal, a no-op on a missing id |
| `Sessions.SessionStore.GetSessionsBySubjectId` | store/session.go:138-165 | each of the subject's records exactly once, with ClientIDs from the column, or failure exactly when the scan breaks off |
| `Sessions.SessionStore.DeleteSessionsBySubjectId` | store/session.go:170-178 | removes exactly the subject's records and counts them |
| `Sessions.SessionStore.AddClientId` | store/session.go:183-192 | appends once, a no-op on a missing id |
| `Sessions.SessionStore.DeleteExpiredSessions` | store/session.go:199-206 | removes exactly the sessions expired below the cutoff and counts them |
| `GrantFilter.CompilationPreservesMeaning` | store/persisted_grant.go:169-200 | for every filter, also nil and empty, and every row: parsing the rendered query text and evaluating it with the returned arguments equals the conjunction over the set fields |
| `GrantFilter.ReadsBack` | store/persisted_grant.go:175-199 | every rendered clause parses back to exactly its conditions, by a parser with column names, operators and the conjunction of its own |
| `GrantFilter.PlaceholdersInOrder` | store/persisted_grant.go:175-191 | the placeholders are $1..$k in order, k the number of arguments |
| `GrantFilter.TextDependsOnShapeOnly` | store/persisted_grant.go:175-199 | the text depends on which fields are set, never on their values: no value reaches the SQL text |
| `GrantFilter.Add` | store/persisted_grant.go:175-178 | the closure keeps text and arguments rendered in step |
| `GrantFilter.AddAny` | store/persisted_grant.go:188-191 | so does the list condition |
| `GrantFilter.BuildFilter` | store/persisted_grant.go:169-200 | the step-by-step construction yields the clause and arguments the lemmas are about |
| `Digits.ReadDecimal` | store/persisted_grant.go:176 | a placeholder number reads back, whatever non-digit follows it |
| `Digits.Numerals` | store/persisted_grant.go:176 | and is written in the usual numerals |
| `PersistedGrants.StepRefines` | store/persisted_grant.go:44-157 | every statement, queries by rendered text included, keeps all five columns equal to the payload's fields and acts on the decoded records as on a plain map |
| `PersistedGrants.RunRefines` | store/persisted_grant.go:44-157 | so does every run |
| `PersistedGrants.QueryExact` | store/persisted_grant.go:84-90 | the rendered query selects exactly the grants whose decoded fields match the filter |
| `PersistedGrants.MatchingExactly` | store/persisted_grant.go:164-200 | which grants match, written out on their own fields for all six fields of the filter |
| `PersistedGrants.RevocationMatchesListing` | store/persisted_grant.go:127-143 | RemoveAll splits the table into what GetAll lists and the unchanged rest, and GetAll is then empty |
| `PersistedGrants.ReclaimNeverEarly` | store/persisted_grant.go:150-157 | a reclaimed grant has an expiration strictly before the cutoff |
| `PersistedGrants.ReclaimExact` | store/persisted_grant.go:150-157 | by exact times: a grant whose expiration lies a microsecond or more before the cutoff goes, one at or after it, or with none, stays as it is |
| `PersistedGrants.PersistedGrantStore.Store` | store/persisted_grant.go:44-61 | an upsert: the decoded map gets the new record under its key |
| `PersistedGrants.PersistedGrantStore.Get` | store/persisted_grant.go:66-79 | the record or the missing sentinel |
| `PersistedGrants.PersistedGrantStore.GetAll` | store/persisted_grant.go:84-113 | each matching grant exactly once, or failure exactly when the scan breaks off |
| `Prelude.FetchAll` | store/persisted_grant.go:96-112 | the loop over a query's rows: every record in order, or failure exactly when one does not decode or the scan breaks off |
| `Prelude.ScanLists` | store/persisted_grant.go:96-112 | what the loop collects is each record under the selected keys, once |
| `PersistedGrants.PersistedGrantStore.Remove` | store/persisted_grant.go:117-125 | removal, a no-op on a missing key |
| `PersistedGrants.PersistedGrantStore.RemoveAll` | store/persisted_grant.go:131-143 | removes exactly the matching grants |
| `PersistedGrants.PersistedGrantStore.RemoveExpired` | store/persisted_grant.go:150-157 | removes exactly the grants expired below the cutoff and counts them |
| `Base64.RoundTrip` | store/codec.go:41 | decoding gives back every byte sequence, with both padding cases |
| `Base64.Alphabet` | store/codec.go:41 | the alphabet is that of section 4 of RFC 4648, in its order |
| `Base64.Examples` | store/codec.go:41 | examples of section 10 of RFC 4648 |
| `Base64.EncodeIsPlain` | store/codec.go:41 | the encoding uses the base64 alphabet only |
| `Base64.EncodeLength` | store/codec.go:41 | four characters for every three bytes begun |
| `Envelope.ReadsString` | store/codec.go:43-50 | every text survives quoting, whatever it contains |
| `Envelope.LexWeave` | store/codec.go:48-52 | white space between tokens changes nothing |
| `Envelope.ReadsMembers` | store/codec.go:48-52 | any member list reads back from its tokens |
| `Envelope.AssignsInAnyOrder` | store/codec.go:19-23 | the container's fields are filled correctly from members in any order |
| `Envelope.ParsesEveryLayout` | store/codec.go:48-52 | the container parses back from every permutation of its keys and any white space |
| `Codec.DecodeEncode` | store/codec.go:33-58 | decode(encode(v)) = v, before and after the jsonb column has reordered the envelope, for every invertible model marshaller |
| `Codec.DecodesEveryLayout` | store/codec.go:46-58 | and after any layout the column may choose |
| `Codec.ColumnIsFaithful` | store/codec.go:33-58 | so the payload column of every store gives back what was written |
| `Codec.Base64NeedsNoEscape` | store/codec.go:38-43 | the base64 alphabet needs no JSON escaping |
| `Codec.WireFormat` | store/codec.go:38-43 | the encoded text is the three-field object with the base64 of the marshalled model, literally |
| `Codec.WireText` | store/codec.go:19-43 | the whole encoded text written out, version number 1 included |
| `ReferenceTokens.RunKeepsConsistent` | store/reference_token.go:38-83 | over every run every payload decodes and the expiry column is the derived one |
| `ReferenceTokens.InsertOnly` | store/reference_token.go:38-56 | a row that is there and was not stored meanwhile is the row that was there |
| `ReferenceTokens.ReclaimExact` | store/reference_token.go:132-139 | by exact times: a token whose creation time plus lifetime lies a microsecond or more before the cutoff goes, one at or after it stays as it is |
| `ReferenceTokens.RevocationInterleaved` | store/reference_token.go:90-126 | with other callers in between: every match of the scan is gone, a match left over was stored meanwhile, a lost stranger had its handle re-stored, and every handle the scan did not match is untouched |
| `ReferenceTokens.RevocationAtomicExactlyWhen` | store/reference_token.go:90-126 | scan and delete act like one step at the delete if and only if, among what other callers stored in between and nobody removed again, the tokens of the pair are exactly those under scanned handles |
| `ReferenceTokens.StoredOrThereBefore` | store/reference_token.go:38-56 | over every run: a row at the end was there unchanged from the start, or one statement stored it and nothing removed it since |
| `ReferenceTokens.StoredForGoodStays` | store/reference_token.go:38-56 | and what such a statement stored is the row at the end |
| `ReferenceTokens.OneStepAtTheScanExactlyWhen` | store/reference_token.go:90-126 | scan and delete act like one step at the scan if and only if, with the scanned tokens gone, other callers would have left nothing stored under a scanned handle |
| `ReferenceTokens.OneStepAtTheScanWithoutReuse` | store/reference_token.go:90-126 | in particular when nobody re-uses a scanned handle |
| `ReferenceTokens.OneStepInBetween` | store/reference_token.go:90-126 | and like one step after the first `i` statements of other callers, when a delete there would have been one step and nobody re-uses a scanned handle after them |
| `ReferenceTokens.RevocationAlone` | store/reference_token.go:90-126 | run alone it removes exactly the pair's tokens, and none is left |
| `ReferenceTokens.ReusedHandleIsLost` | store/reference_token.go:116-120 | the run that shows the exception: a re-used handle takes a stranger's token with it, and no single step at any moment does that |
| `ReferenceTokens.ReferenceTokenStore.StoreReferenceToken` | store/reference_token.go:38-56 | insert-only; each outcome with its condition |
| `ReferenceTokens.ReferenceTokenStore.GetReferenceToken` | store/reference_token.go:58-71 | record, missing sentinel or decode error |
| `ReferenceTokens.ReferenceTokenStore.RemoveReferenceToken` | store/reference_token.go:75-83 | removal, a no-op on a missing handle |
| `ReferenceTokens.ReferenceTokenStore.ScanHandles` | store/reference_token.go:91-115 | the scan collects exactly the pair's handles, and fails exactly on a payload that does not decode or a scan that breaks off |
| `ReferenceTokens.ReferenceTokenStore.RemoveReferenceTokens` | store/reference_token.go:90-126 | the whole method, outcome and table exactly: nothing is deleted on a scan or decode error or when nothing matched; else the table is the one the lemmas speak of, or, with the DELETE refused, the one other callers left |
| `ReferenceTokens.ReferenceTokenStore.RemoveExpired` | store/reference_token.go:132-139 | exactly the rows strictly below the cutoff, counted |
| `DeviceFlow.StepRefines` | store/device_flow.go:41-139 | every statement acts on the two-key map as promised: both codes read one record, update by user code keeps both keys and refreshes the expiry, removal by device code removes both |
| `DeviceFlow.RunRefines` | store/device_flow.go:41-139 | so does every run, and user codes stay unique over the rows |
| `DeviceFlow.BothCodesTogether` | store/device_flow.go:115-126 | both lookups of a pair give one record, and removal by device code removes both |
| `DeviceFlow.ExpiryQueryExact` | store/device_flow.go:132-139 | the expiry column selects exactly the records expired by their decoded creation time and lifetime |
| `DeviceFlow.ReclaimExact` | store/device_flow.go:132-139 | by exact times: a pair whose creation time plus lifetime lies a microsecond or more before the cutoff goes, one at or after it stays as it is |
| `DeviceFlow.DeviceFlowStore.StoreDeviceAuthorization` | store/device_flow.go:41-57 | duplicate exactly when either code is present |
| `DeviceFlow.DeviceFlowStore.FindByDeviceCode` | store/device_flow.go:62-75 | the record under the device code, or the missing sentinel |
| `DeviceFlow.DeviceFlowStore.FindByUserCode` | store/device_flow.go:80-93 | the record under the user code, or the missing sentinel |
| `DeviceFlow.DeviceFlowStore.UpdateByUserCode` | store/device_flow.go:99-113 | replacement under both keys, a no-op on a missing user code |
| `DeviceFlow.DeviceFlowStore.RemoveByDeviceCode` | store/device_flow.go:118-126 | both lookups lose the record |
| `DeviceFlow.DeviceFlowStore.RemoveExpired` | store/device_flow.go:132-139 | exactly the expired pairs, counted |
| `Backchannel.RunKeepsConsistent` | store/backchannel_authentication_request.go:42-104 | over every run the expiry column is the one derived from the current payload, NULL iff the time is zero |
| `Backchannel.ReclaimNeverEarly` | store/backchannel_authentication_request.go:112-119 | a reclaimed request has a non-zero expiration strictly before the cutoff |
| `Backchannel.ReclaimExact` | store/backchannel_authentication_request.go:112-119 | by exact times: a request whose expiration lies a microsecond or more before the cutoff goes, one at or after it, or with none, stays as it is |
| `Backchannel.UpdateMovesExpiry` | store/backchannel_authentication_request.go:79-92 | after an update a reclaim goes by the new time alone, in exact times |
| `Backchannel.BackchannelAuthenticationRequestStore.Store` | store/backchannel_authentication_request.go:42-55 | insert-only; each outcome with its condition |
| `Backchannel.BackchannelAuthenticationRequestStore.Find` | store/backchannel_authentication_request.go:60-73 | record, missing sentinel or decode error |
| `Backchannel.BackchannelAuthenticationRequestStore.UpdateRequest` | store/backchannel_authentication_request.go:79-92 | payload and expiry replaced together, a no-op on a missing id |
| `Backchannel.BackchannelAuthenticationRequestStore.Remove` | store/backchannel_authentication_request.go:96-104 | removal, a no-op on a missing id |
| `Backchannel.BackchannelAuthenticationRequestStore.RemoveExpired` | store/backchannel_authentication_request.go:112-119 | exactly the expired rows, counted |
| `Reclaim.Conservation` | store/refresh_token.go:134-141 | the count is the number of rows lost, and every other row is unchanged |
| `Reclaim.Composition` | store/session.go:199-206 | two reclaims in a row are one at the larger cutoff, and their counts add |
| `Reclaim.NeverEarly` | store/session.go:199-206 | for every monotone rounding of column and cutoff: a row is kept exactly when its rounded expiry is NULL or not below the rounded cutoff, and none is taken whose exact expiry is at or after the cutoff |
| `Time.MicrosIsMonotone` | store/refresh_token.go:136 | the rounding of the column never turns the order of two instants round |
| `Time.MicrosResolution` | store/refresh_token.go:136 | and it tells apart instants that are a microsecond apart |
| `Time.LifetimeExpiryExact` | store/refresh_token.go:48 | the int64 nanosecond product is exact if and only if the lifetime's magnitude is at most 9223372036 seconds |
| `Time.LifetimeExpiryMonotone` | store/device_flow.go:46 | within that range a longer lifetime expires later |
| `Time.LifetimeExpiryWraps` | store/refresh_token.go:94 | one second more and the token expires before it was created |
| `FileOrder.NameOrderIsVersionOrderExactly` | migrations/migrations.go:177-193 | two whole names sort as their versions do if and only if neither misleads: its version followed by an underscore against a longer version that goes on with a smaller character |
| `FileOrder.SortedNamesSortVersions` | migrations/migrations.go:177-193 | names with distinct prefixes of equal length, sorted whole, have sorted versions |
| `FileOrder.UpAndDownAgree` | migrations/migrations.go:97-101 | up and down files with the same prefixes give one version sequence, and `Down` visits it in exact reverse |
| `FileOrder.UnequalLengthsMislead` | migrations/migrations.go:182 | two names for which it fails |
| `FileOrder.MigrationFiles` | migrations/migrations.go:177-184 | exactly the entries with the suffix, in strictly ascending order |
| `FileOrder.ListingUnique` | migrations/migrations.go:182 | there is only one such list |
| `FileOrder.AscendingUnique` | migrations/migrations.go:182 | two ascending lists of the same names are equal |
| `EmbeddedFiles.EmbeddedPlan` | migrations/migrations.go:24-25 | whatever sorted listing the runner finds among the real file names, its versions and bodies are the plan of `Schema` |
| `EmbeddedFiles.VersionBeforeUnderscore` | migrations/migrations.go:188-193 | a version without underscore is cut out of any name that goes on with one |
| `Ddl.MirrorRestores` | migrations/000001_init.down.sql:2-3 | for every building script that succeeds on a well-formed database: the drops in mirror order succeed and restore it, rows included |
| `Ddl.UndoOne` | migrations/000002_device_flow_user_code.down.sql:4-5 | one statement and its drop |
| `Ddl.DropOrderIrrelevant` | migrations/000001_init.down.sql:5-17 | index drops of the same names have one effect in any order |
| `Ddl.ShapeScript` | migrations/000001_init.up.sql:8-104 | the schema a script leads to depends on the schema alone, and whether drops succeed does too |
| `Ddl.SparedRows` | migrations/migrations.go:119-126 | a script that spares a table neither reads nor writes its rows |
| `Ddl.CreatedNamesWereFree` | migrations/000001_init.up.sql:18-104 | a building script succeeds only where the names it creates are free |
| `Schema.RealPlan` | migrations/000001_init.down.sql:5-29 | for the real scripts: each down file takes back its up file on every well-formed database, the first one also dropping the bookkeeping table, so all theorems about the runner apply |
| `Schema.InitDownIsNoStrictMirror` | migrations/000001_init.down.sql:1-17 | the index drops of the first down file are not in mirror order, and do on every database what mirror order would |
| `Schema.InitUndone` | migrations/000001_init.up.sql:8-104 | the first down file without its last statement exactly undoes the first up file |
| `Schema.PairUndone` | migrations/000003_session_subject_id.down.sql:4-5 | a column and its index, added and dropped again |
| `Schema.InitSucceeds` | migrations/000001_init.up.sql:18-104 | the first script succeeds wherever its names are free, and leaves device_codes empty |
| `Schema.UserCodeExact` | migrations/000002_device_flow_user_code.up.sql:8-9 | the second script succeeds if and only if device_codes is empty |
| `Schema.AllSucceedExactly` | migrations/000001_init.up.sql:8-104 | all scripts together succeed if and only if no name of the schema is taken |
| `Schema.UpSucceedsExactly` | migrations/migrations.go:52-66 | on a base with the names of the schema free: from every state an interrupted run can leave, `Up` on a working connection succeeds if and only if device_codes is empty or 000001 is not the last recorded version |
| `Schema.FirstUpSucceedsExactly` | migrations/migrations.go:30-110 | on a database never migrated, `Up` succeeds if and only if no name of the schema is taken, and `Down` then restores the schema |
| `Schema.FirstUpLeaves` | migrations/000001_init.up.sql:8-104 | what a first successful `Up` leaves, written out: every table with its columns and primary key, every index with its columns, the unique ones and the partial one, and the bookkeeping table with the three versions |
| `Migrations.UpConverges` | migrations/migrations.go:30-67 | from any recorded prefix, wherever the connection breaks: the result is that of running exactly the scripts up to a longer prefix; success means the full list, and with a working connection comes exactly when every remaining script succeeds |
| `Migrations.UpTwice` | migrations/migrations.go:24-29 | `Up` after a successful `Up` changes nothing |
| `Migrations.RevertOne` | migrations/migrations.go:135-154 | reverting the last recorded version succeeds and gives back the schema before it |
| `Migrations.DownRestores` | migrations/migrations.go:73-110 | `Down`, wherever the connection breaks, stops on a shorter prefix; success leaves neither bookkeeping table nor any object of the scripts, unless nothing was recorded |
| `Migrations.DownLeavesNothingExactlyWhen` | migrations/migrations.go:73-110 | a successful `Down` leaves nothing behind if and only if some version was recorded |
| `Migrations.BookStaysBehind` | migrations/migrations.go:37-42 | the run that shows the exception: `Up` breaks off after creating the bookkeeping table, `Down` succeeds, the table is still there |
| `Migrations.DownAfterUp` | migrations/migrations.go:69-110 | `Up`, any writes of the stores, `Down`: the schema is the one before |
| `Migrations.HistoryStaysSound` | migrations/migrations.go:30-154 | over every history of `Up` and `Down` calls, each interrupted anywhere, and store writes: the recorded versions are a prefix and the schema is the fold of its up scripts |
| `Migrations.StepKeepsSound` | migrations/migrations.go:30-110 | one call of a history; success of `Up` means the full list, success of `Down` nothing recorded |
| `Migrations.HostTablesUntouched` | migrations/migrations.go:30-154 | a table no script names keeps columns and rows through every history |
| `Migrations.RunBody` | migrations/migrations.go:119-122 | statement by statement, stopping at the first error |
| `Migrations.Migrator.ApplyFile` | migrations/migrations.go:114-133 | the database afterwards, for a connection that breaks at any call, the commit whose answer is lost included |
| `Migrations.Migrator.RevertFile` | migrations/migrations.go:135-154 | the same for reverting: the bookkeeping row goes first |
| `Migrations.Migrator.Up` | migrations/migrations.go:30-67 | the loop over the sorted files computes `UpAll` |
| `Migrations.Migrator.Down` | migrations/migrations.go:73-110 | the loop backwards computes `DownAll` |
| `ConcurrentUp.ConcurrentRuns` | migrations/migrations.go:30-67 | any number of `Up` runs, failing anywhere, with store writes in between: the recorded versions stay a prefix, the schema its fold, and the commits are exactly the versions in between, in order; a finished run means the full list |
| `ConcurrentUp.ConcurrentUps` | migrations/migrations.go:30-67 | the same from any sound database, and no version is committed twice |
| `ConcurrentUp.LoserAborts` | migrations/migrations.go:123-128 | a run that wants a version another one has recorded aborts, its transaction undone |
| `ConcurrentUp.UpAllIsOneRunAlone` | migrations/migrations.go:30-67 | what `Migrator.Up` computes, database and outcome, the calls of that one run, and of no other, played alone do, for every break of the connection: the theorems about histories are about that loop |
| `ConcurrentUp.TransactionAt` | migrations/migrations.go:114-133 | a transaction extends the prefix by one at its end and fails before it |

## Left out

- The authorization code and user consent stores: easier instances of the insert-only and upsert tables that are modelled.
- Pool acquisition, context cancellation except where a store turns it into its missing sentinel, logging, constructors over a pool and `ConformsTo`: plumbing.
- The model types and `encoding/json` on them: marshalling is an abstract function with an inverse; the fields the adapter never looks at are one field `body`.
- PostgreSQL's inside: locks, snapshots, planner, implicit indexes of primary keys; statements are atomic, and a concurrent CREATE TABLE IF NOT EXISTS that errors counts as a failed call.
- Strings are sequences of Unicode characters: a surrogate pair spelled out as two escapes, which the adapter never writes, is not joined, and there is no invalid UTF-8.
- Envelope.ParsesEveryLayout: covers the keys as they are spelled in the struct; the decoder's case folding of keys, nested values, negative numbers and fractions do not occur in what the adapter writes and are rejected.
- Error-wrapping chains: outcomes are done, duplicate, not found, conflict and failed.
- Ddl.Exec: CREATE UNIQUE INDEX is refused on a table of two or more rows, whatever they hold; the scripts create unique indexes on empty tables only.
- Migrations.Applied: a table named schema_migrations of another definition is refused; a view or sequence of that name is not part of this model.
- Migrations.Migrator.Up: the time written to applied_at is not recorded, rows are known by their primary key.
- Store methods of one statement are modelled with that statement answered. One whose answer is lost is one more statement of a run, so the theorems over runs cover it; its caller just sees an error.
- `Down` at the same time as another `Down` or an `Up`: `Down` runs alone here, in any order with `Up` runs and store writes.
