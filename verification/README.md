# Verified model of the character write path

This project models, in Dafny 4.11, how the character API writes: the row table and the database functions that
guard it, the repository and use cases above it, the idempotency middleware with its two stores, and the small
parsers at the HTTP edge. It proves what the layers promise together when requests interleave.

Verify everything with `dafny verify dfyconfig.toml`.

## How it is built

| file | what it holds |
|---|---|
| `Basics.dfy`, `Text.dfy` | options, results, integer widths; trimming, splitting, decimal integers |
| `Domain.dfy` | the entity with its PATCH merge and PUT replacement, and the algebra of writes |
| `Convert.dfy` | domain fields to row columns and back |
| `Table.dfy` | `core_characters` and `races` as an object whose methods are the SQL statements and functions |
| `Lifecycle.dfy`, `TableRuns.dfy` | whole runs of the tables: the lifecycle invariant, versions, tokens, split operations |
| `Repository.dfy`, `Service.dfy` | the repository (with the GC age clamp) and the use cases |
| `LostUpdates.dfy` | PUT and PATCH as read, merge, write, interleaved with everything else |
| `Store.dfy`, `Middleware.dfy` | the in-memory and the Redis store, and one request through the middleware |
| `MiddlewareRuns.dfy`, `RedisRuns.dfy` | any number of interleaved requests over the in-memory store, and over Redis with a clock |
| `ExactlyOnce.dfy` | creation through both layers, with a store that may lose anything at any moment |
| `Paging.dfy`, `Handler.dfy` | list, count and paging; ETag, If-Match and list parameters |

Objects the service updates in place are classes; each method is tied by its `ensures` to a function of the state it
found. The runs of the tables are sequences of those functions. The runs of requests split an operation into the steps
others can come between, and for each of them a lemma shows that the steps with nothing in between are the method:
`LostUpdates.AloneIsTheUseCase`, `MiddlewareRuns.AloneIsServe`, `RedisRuns.AloneIsBegin`, and for creation through
both layers `ExactlyOnce.AloneIsCreate` and `AloneIsReplayed`. The table carries a ghost history (inserts, commits,
reclaimed ids) for claims about whole runs.

Assumed from outside: new ids are fresh; a row-locked SQL function is one step, except `confirm_character` and `Save`,
which are also treated as their two statements; time, generated ids, `uuid.Parse` and the way a handler ends are
parameters. An If-Match in the lost-update theorem is omitted, repeats a version an earlier response showed, or meets
the condition of `LostUpdates.SureToKeepFoldIff`.

## Where the code differs from what is written about it

- `character_repo.go:68-72` explains `ErrCreationTokenConsumed` as a deleted row holding the token. Between its two
  statements GC can also reclaim the row. `TableRuns.ConsumedMeansDeletedIff`: the explanation is sure to hold exactly
  when the row in the way was already confirmed; `ConsumedMayMeanReclaimed` is a run from empty tables where it fails.
- `service.go:168-171` promises no lost update when If-Match is omitted, and the code keeps that
  (`LostUpdates.NoLostUpdates`). A supplied If-Match is never compared with the version read, so a PATCH that expects a
  future version can write over an update it did not see. `LostUpdates.SureToKeepFoldIff` gives the exact condition.
- The contract of `Begin` (`idempotency.go:24-28`) is one decision, but over Redis it is two commands: a finished entry
  seen by the SETNX can expire before the GET, which then answers "in progress" (`RedisRuns.MismatchIsReachable`).
  `RedisRuns.BeginIsAtomicIff` says exactly when that is excluded, and `RedisRefinesMemory` that without expiry a whole
  run over Redis is one of the in-memory store. `RedisRuns.SecondHolderIffOverrun` says exactly when a reservation
  protects nothing, and `OverrunIsReachable` that it comes to that.
- A replay from the database repeats the id and the state, not the bytes: a fresh 201 has an empty race name, the
  replayed one the joined name (`Service.CharacterService.Create`).
- Store entries are scoped by the route template, so confirming two ids with one key shares one entry
  (`Middleware.StoreKeyScopes`).

## Model

| member | source | states |
|---|---|---|
| Text.SpacesAreWhiteSpace | internal/domain/character/character.go:199 | what is trimmed is exactly the 25 characters with the Unicode property White_Space |
| Text.TrimSpaceIsTheCore | internal/domain/character/character.go:199 | trimming gives the one core with no space at either end that the text is a space-padding of |
| Text.TrimSpaceIsTight | internal/domain/character/character.go:199 | a trimmed text has no space at its ends and trimming it again changes nothing |
| Text.ParseFormatInt | internal/interfaces/http/handler/character_handler.go:387-396 | decimal formatting and parsing round-trip on every int64 |
| Text.ParseIntIff | internal/interfaces/http/handler/character_handler.go:386-389 | a text is accepted as v iff it is an optional sign and digits standing for v, within 64 bits |
| Text.SplitIsTheParts | internal/interfaces/http/handler/character_handler.go:70-90 | splitting yields separator-free parts that joined give the text back |
| CharacterDomain.NormalizedNamesAreFixed | internal/domain/character/character.go:198-205 | accepted names come out trimmed with 1..100 runes; a name is accepted unchanged iff it is already so |
| CharacterDomain.NamesCountByTheirCore | internal/domain/character/character.go:198-205 | whatever space surrounds it, a name is accepted as its core of 1..100 runes, else refused |
| CharacterDomain.PutIsRefusedIff | internal/domain/character/character.go:159-166 | PUT and POST refuse exactly a bad name and, failing that, an unknown gender |
| CharacterDomain.PatchIsRefusedIff | internal/domain/character/character.go:108-127 | PATCH refuses exactly the same of the fields it names |
| CharacterDomain.Character.Update | internal/domain/character/character.go:108-137 | which error, and the exact fields left behind: merged, untouched, or half merged on an unknown gender |
| CharacterDomain.Character.Replace | internal/domain/character/character.go:159-180 | all twelve fields replaced with a normalized name, or none |
| CharacterDomain.PatchesMerge | internal/domain/character/character.go:108-137 | any sequence of accepted PATCHes equals one merged PATCH, which is accepted |
| CharacterDomain.MergingIsAMonoid | internal/domain/character/character.go:207-219 | merging PATCHes is associative, the empty PATCH is its identity, merges of sequences concatenate |
| CharacterDomain.FoldConcat | internal/domain/character/character.go:108-180 | applying two sequences of writes one after the other is applying their concatenation |
| CharacterDomain.PutAbsorbs | internal/domain/character/character.go:159-180 | a PUT erases the effect of every write before it |
| Convert.TenthsRoundTrip | internal/infrastructure/persistence/postgres/convert.go:102-123 | a NUMERIC(4,1) read and written back is unchanged |
| Convert.DatesAreDays | internal/infrastructure/persistence/postgres/convert.go:81-94 | a date is stored as the day it falls on and reads back as that day's start |
| Convert.NumericIsNearest | schema.sql:25 | a body fat is stored as its nearest tenth, halves away from zero |
| Convert.PutWritesTheRequest | internal/domain/character/character.go:167-178 | whatever the row held, a PUT writes the request column by column: core of the name, NULL for empty texts, day, nearest tenth |
| Convert.RowRoundTripIff | internal/infrastructure/persistence/postgres/character_repo.go:214-234 | row to domain to row is the identity iff no optional text is the empty string |
| Convert.WrittenColumnsAreNormal | internal/infrastructure/persistence/postgres/convert.go:37-57 | what the repository writes uses NULL for unset texts and reads back as what was meant |
| Convert.RewrittenIsNormal | internal/infrastructure/persistence/postgres/character_repo.go:119-139 | a written row has a normalized name, a known gender and normal texts |
| Convert.PatchKeepsUntouchedColumnsIff | internal/domain/character/character.go:108-137 | a PATCH rewriting all columns changes only the named ones, iff no unnamed optional text is the empty string |
| CharacterTable.GcIsExact | views/10_character_write_functions.sql:177-181 | GC removes exactly the unconfirmed rows strictly older than the age, returns the drop, alters nothing else, leaves none |
| CharacterTable.DeleteExpired | views/10_character_write_functions.sql:177-180 | the deleting pass keeps every row but the expired ones and counts those |
| CharacterTable.ConstraintsOfTheRequest | schema.sql:21-29 | which accepted inputs the constraints refuse, in terms of the request: place over 150, a measurement not positive, body fat outside the rounded 0..100 |
| CharacterTable.Table.FindByToken | internal/infrastructure/persistence/postgres/sqlc/query.sql:25-30 | finds a holder of the token, or none exists; with the filter, a holder that is not deleted |
| CharacterTable.Table.CreateCharacter | internal/infrastructure/persistence/postgres/sqlc/query.sql:11-23 | one pending row inserted, or none on a taken token, or the constraint that failed |
| CharacterTable.Table.UpdateCharacter | views/10_character_write_functions.sql:55-87 | 404 for rows not visible, 412 for another version, else all columns written and the version raised by one |
| CharacterTable.Table.SoftDeleteCharacter | views/10_character_write_functions.sql:108-129 | only a visible row of the expected version is stamped deleted |
| CharacterTable.Table.ConfirmCharacter | views/10_character_write_functions.sql:144-163 | succeeds iff the row exists undeleted; the result is visible; confirming again moves nothing |
| CharacterTable.Table.GcUnconfirmedCharacters | views/10_character_write_functions.sql:172-183 | the table afterwards is the one without the expired reservations, and the count is theirs |
| Lifecycle.RacesChangeOnlySo | schema.sql:7-17 | a race is added iff its id and name are new, and removed iff no row refers to it; rows are never touched |
| Lifecycle.StepKeepsRows | schema.sql:12-50 | every statement keeps: deleted implies confirmed, pending implies version 1, races exist, constraints hold |
| Lifecycle.StepKeepsHistory | schema.sql:67-68 | every statement keeps tokens unique among rows, ids inserted once, and versions equal to one plus the commits |
| Lifecycle.StepIsLater | views/10_character_write_functions.sql:106-183 | no statement undoes a confirmation, alters a deleted row, lowers a version or removes a confirmed row |
| Lifecycle.RunKeeps | views/10_character_write_functions.sql:28-183 | the lifecycle invariant and all that evolves one way hold over every run of any length |
| TableRuns.EveryRunIsValid | views/10_character_write_functions.sql:28-183 | every state of every run from empty tables is valid and later than each state before it |
| TableRuns.OneCommitPerVersion | views/10_character_write_functions.sql:64-85 | for each id and version at most one update ever commits |
| TableRuns.VersionCountsCommits | views/10_character_write_functions.sql:70-85 | the version is one plus the committed updates, each of which found a lower version |
| TableRuns.VersionDeterminesColumns | views/10_character_write_functions.sql:64-85 | at any two moments of a run the same id and version carry the same business columns |
| TableRuns.OnlyUpdatesMoveVersions | views/10_character_write_functions.sql:124-146 | confirm, delete, GC and race changes move neither versions nor business columns |
| TableRuns.ConfirmedTokenIsClosed | internal/infrastructure/persistence/postgres/sqlc/query.sql:11-23 | once a token's row was confirmed, even if deleted since, no insert under the token succeeds |
| TableRuns.OneConfirmedRowPerToken | schema.sql:64-68 | at most one row per token is confirmed in a whole run |
| TableRuns.SecondInsertMeansReclaimed | schema.sql:64-68 | of two inserts under one token the earlier row was reclaimed |
| TableRuns.SaveAnswersFit | internal/infrastructure/persistence/postgres/character_repo.go:60-80 | the answer after the lookup fits the tables: created, the one live holder, or consumed for a stated cause |
| TableRuns.SaveSplit | internal/infrastructure/persistence/postgres/character_repo.go:26-81 | with anything between its two statements, Save inserts one pending row, returns the live holder, or finds every obstacle deleted or reclaimed |
| TableRuns.ConsumedMayMeanReclaimed | internal/infrastructure/persistence/postgres/character_repo.go:66-73 | a run where the token is reported consumed though nothing was deleted |
| TableRuns.ConsumedMeansDeletedIff | internal/infrastructure/persistence/postgres/character_repo.go:60-73 | whatever runs between INSERT and lookup, consumed means the row in the way is deleted, iff that row was confirmed at the INSERT |
| TableRuns.ConfirmSplitIsAtomic | views/10_character_write_functions.sql:144-163 | confirm as UPDATE then SELECT acts as one atomic idempotent confirm at one of the two instants |
| TableRuns.GoneForGood | views/10_character_write_functions.sql:133-136 | a deleted or reclaimed id is never visible again |
| TableRuns.DeleteOnlyStamps | views/10_character_write_functions.sql:108-129 | a delete that passes sets deleted_at and updated_at of the one row; any other changes nothing |
| TableRuns.DeleteIsFinal | views/10_character_write_functions.sql:124-127 | after such a delete the row is never visible again in any run |
| TableRuns.ConfirmOnlyStamps | views/10_character_write_functions.sql:144-151 | a confirm of a pending row sets confirmed_at and updated_at of that row; any other changes nothing |
| TableRuns.Confirm404IsFinalIff | views/10_character_write_functions.sql:153-161 | a 404 of confirm is final for ids issued before the call; exactly when it is final in general |
| Repository.ClampSeconds | internal/infrastructure/persistence/postgres/character_repo.go:98-108 | the GC age is always 1..2^31-1 seconds, for every int64 duration |
| Repository.ClampIsWholeSeconds | internal/infrastructure/persistence/postgres/character_repo.go:99-108 | it is the whole seconds of the duration except below one second and above the maximum |
| Repository.CharacterRepository.Save | internal/infrastructure/persistence/postgres/character_repo.go:26-81 | inserts the record, or overwrites it with the live row of its token, or reports the token consumed |
| Repository.CharacterRepository.FindByID | internal/infrastructure/persistence/postgres/character_repo.go:156-165 | finds exactly the visible rows, as they are |
| Repository.CharacterRepository.Update | internal/infrastructure/persistence/postgres/character_repo.go:119-154 | one guarded update of all columns, its SQL errors mapped, the stored row returned |
| Repository.CharacterRepository.Delete | internal/infrastructure/persistence/postgres/character_repo.go:199-208 | stamps exactly a visible row as deleted and nothing else, else not found with nothing changed |
| Repository.CharacterRepository.Confirm | internal/infrastructure/persistence/postgres/character_repo.go:85-94 | returns the visible row, freshly confirmed or as it was, nothing else changed; or not found |
| Repository.CharacterRepository.GC | internal/infrastructure/persistence/postgres/character_repo.go:98-113 | removes the reservations older than the clamped age and returns the drop in rows |
| Service.WriteIsDecided | internal/usecase/character/service.go:145-189 | which error a PUT or PATCH ends with, in which order, and that any error leaves the tables alone; a supplied version that is not the row's is a version conflict, an omitted or equal one never is |
| Service.WriteChangesOneRow | views/10_character_write_functions.sql:70-85 | without error the columns, the version by one and the time of that row change, and nothing else |
| Service.PutStoresTheRequest | internal/usecase/character/service.go:120-162 | after an accepted PUT the row in the table carries the request column by column |
| Service.CreateIsDecided | internal/infrastructure/persistence/postgres/character_repo.go:26-81 | how a POST ends, in which order: bad input, constraints, the live row of its token, consumed, taken id, missing race, fresh |
| Service.PostStoresTheRequest | internal/usecase/character/service.go:52-72 | a fresh POST adds one pending row at version 1 under its token that carries the request column by column |
| Service.SaveAloneIsCreate | internal/infrastructure/persistence/postgres/character_repo.go:26-81 | with nothing between its two statements, Save under POST gives exactly the answers POST may give |
| Service.CharacterService.Create | internal/usecase/character/service.go:52-72 | a valid input is stored normalized and pending under the fresh id, its columns those of the request, or replayed, or refused with nothing changed |
| Service.CharacterService.Replace | internal/usecase/character/service.go:145-162 | the row carries the request at the next version and the answer shows it, the supplied version having been the row's; or the tables are untouched and the error says why |
| Service.CharacterService.Update | internal/usecase/character/service.go:172-189 | the same for PATCH, also when the merge in memory was half done |
| Service.CharacterService.Delete | internal/usecase/character/service.go:191-196 | succeeds exactly on visible rows, stamps that row alone and hides it for good; an error changes nothing |
| LostUpdates.CommitKeepsFold | internal/usecase/character/service.go:172-189 | a commit that passes applies its write to the row as it is at that moment |
| LostUpdates.NoLostUpdates | internal/usecase/character/service.go:145-189 | in every interleaving a row is its inserted columns with the acknowledged writes, as requested, applied in commit order, each once; every commit wrote what the log up to it adds up to and found the version its request supplied |
| LostUpdates.ReadIsDecided | internal/usecase/character/service.go:172-184 | a row not visible at the read, or a refused input, ends the request; else it goes on with the row as read and the version supplied |
| LostUpdates.AloneIsTheUseCase | internal/usecase/character/service.go:145-189 | the two steps with nothing between them are the use case |
| LostUpdates.CreatedColumnsAreNormal | internal/usecase/character/service.go:52-65 | what POST inserts has a normalized name, a known gender and normal texts |
| LostUpdates.RowsStayNormal | internal/infrastructure/persistence/postgres/character_repo.go:119-139 | in every run such rows stay so, and reading and writing one back changes nothing |
| LostUpdates.VersionCanReach | views/10_character_write_functions.sql:64-85 | any allowed columns can become current at any higher version |
| LostUpdates.SureToKeepFoldIff | internal/usecase/character/service.go:145-184 | a write with a supplied version is sure to lose nothing iff the version is not above the one read, or the write sets every column, or it can never pass |
| IdempotencyStore.MemoryStore.Begin | internal/infrastructure/idempotency/memory.go:19-27 | reserves an absent key, else reports the reservation or the result and changes nothing |
| IdempotencyStore.MemoryStore.Complete | internal/infrastructure/idempotency/memory.go:29-35 | the key holds the result |
| IdempotencyStore.MemoryStore.Release | internal/infrastructure/idempotency/memory.go:37-42 | the key is gone |
| IdempotencyStore.ContractIsMemoryBegin | internal/domain/idempotency/idempotency.go:24-28 | at any instant the contract over Redis is the in-memory Begin over the unexpired values, reservation included |
| IdempotencyStore.RedisKeyScopes | internal/infrastructure/idempotency/redis.go:40-41 | two keys share a server's key iff they are the same; all are under one prefix |
| IdempotencyStore.RedisStore.SetNX | internal/infrastructure/idempotency/redis.go:42-46 | sets the key iff nothing unexpired is there |
| IdempotencyStore.RedisStore.Begin | internal/infrastructure/idempotency/redis.go:40-65 | new only on an absent key, which it reserves for the pending time; a result only if stored at the fetch; it fails iff a command it sends fails, and a reservation whose answer is lost stays |
| IdempotencyStore.RedisStore.Complete | internal/infrastructure/idempotency/redis.go:67-74 | the key holds the result for the full time, also when only the answer is lost |
| IdempotencyStore.RedisStore.Release | internal/infrastructure/idempotency/redis.go:76-78 | the key is gone, whoever held it, also when only the answer is lost |
| Middleware.Utf8OfOne | internal/interfaces/http/middleware/idempotency.go:55 | the length that limits a key counts one to four bytes per character, as UTF-8 does |
| Middleware.StoreKeyScopes | internal/interfaces/http/middleware/idempotency.go:60 | two requests share an entry iff method, route template and key agree |
| Middleware.CopyHeaders | internal/interfaces/http/middleware/idempotency.go:123-127 | exactly the set headers of the list are stored |
| Middleware.SavedIff | internal/interfaces/http/middleware/idempotency.go:101-131 | an outcome is stored iff it is a written response below 500 that is no replay, with its body hash |
| Middleware.ReplyIsDecided | internal/interfaces/http/middleware/idempotency.go:63-97 | 503 without an answer of the store, the handler for a new key, 409 for a reserved one, 422 or the stored response for a finished one |
| Middleware.ReplayRestores | internal/interfaces/http/middleware/idempotency.go:146-156 | a replay has the first response's status, body, Content-Type, ETag and Location, a JSON type if there was none, the mark, and no other header |
| Middleware.Serve | internal/interfaces/http/middleware/idempotency.go:48-141 | passes through, refuses (400, 503) or, for each state of the key, answers and leaves the store as stated, whether the handler succeeds, fails, panics or writes 5xx and whichever store operation fails |
| Middleware.LeftBehind | internal/interfaces/http/middleware/idempotency.go:82-139 | entries found stay as they are; a new key stays reserved, or finished, exactly under the stated failures and outcomes |
| MiddlewareRuns.AloneIsServe | internal/interfaces/http/middleware/idempotency.go:66-140 | for an absent, a reserved and a finished key, the interleaved steps with nothing between them answer and leave the store as `Serve` does |
| MiddlewareRuns.RunKeeps | internal/interfaces/http/middleware/idempotency.go:66-140 | reservations match holders, results match finished handlers, and both only evolve one way, over every run |
| MiddlewareRuns.ReservedIffOneHolder | internal/interfaces/http/middleware/idempotency.go:82-96 | a key is reserved iff exactly one request holds it; with none in flight none is reserved |
| MiddlewareRuns.FinishedKeyIsSettled | internal/interfaces/http/middleware/idempotency.go:72-80 | after a key is finished no handler runs for it: same body gets the stored response, any other 422 |
| RedisRuns.AloneIsBegin | internal/infrastructure/idempotency/redis.go:40-65 | SETNX and GET with only time between them are the store's `Begin`: same entries, same answer |
| RedisRuns.OneHolderWhileTimely | internal/infrastructure/idempotency/redis.go:42-49 | while no held reservation expires a key has one holder and the store still shows it |
| RedisRuns.SecondHolderIffOverrun | internal/infrastructure/idempotency/redis.go:15-19 | a newcomer gets a held key exactly when the holder has outlived the pending time |
| RedisRuns.FinishedEntryStays | internal/infrastructure/idempotency/redis.go:67-78 | a stored result stays until its deadline although Release deletes unconditionally |
| RedisRuns.EntryStays | internal/infrastructure/idempotency/redis.go:40-78 | any entry stays while its holder is idle, until its deadline, and beyond while nobody begins its key |
| RedisRuns.ResultAnswersUntil | internal/infrastructure/idempotency/redis.go:67-74 | a stored result answers every newcomer for exactly the full time, whatever happens in between; then the key is new |
| RedisRuns.ReservationAnswersUntil | internal/infrastructure/idempotency/redis.go:15-19 | a reservation answers in progress for exactly the smaller of the full time and five minutes; then the key is new |
| RedisRuns.OverrunIsReachable | internal/infrastructure/idempotency/redis.go:15-19 | from an empty store, for every time beyond the pending time, a run ends with two holders of one key |
| RedisRuns.EndpointCases | internal/infrastructure/idempotency/redis.go:40-65 | Begin acts at its SETNX or its GET but for one mismatch, never answers new after a failed SETNX, and a result was stored at the GET |
| RedisRuns.BeginIsLinearizable | internal/infrastructure/idempotency/redis.go:40-65 | under the middleware's discipline Begin acts at one instant unless the entry it met expires within the call |
| RedisRuns.BeginIsAtomicIff | internal/infrastructure/idempotency/redis.go:40-65 | over all timely runs up to a time, Begin is sure to act at one instant iff it met a reservation or the entry's deadline is later |
| RedisRuns.MismatchIsReachable | internal/infrastructure/idempotency/redis.go:50-52 | from an empty store a run reaches an answer the contract gives at neither instant |
| RedisRuns.RedisRefinesMemory | internal/infrastructure/idempotency/redis.go:40-78 | without expiry every run is a run of the in-memory store with the same answers, each `Begin` once and between its arrival and its answer |
| ExactlyOnce.TokenIsTheCore | internal/interfaces/http/handler/character_handler.go:135-138 | the creation token is the key without the space around it, and there is none exactly for a blank key |
| ExactlyOnce.OneHandlerWithoutLoss | internal/interfaces/http/middleware/idempotency.go:66-97 | in every run in which the store loses no entry by itself, at most one request per key is past the store |
| ExactlyOnce.RunKeeps | internal/interfaces/http/middleware/idempotency.go:60-140 | the invariant joining store, requests and tables holds over every run in which the store may lose anything |
| ExactlyOnce.AloneIsCreate | internal/interfaces/http/handler/character_handler.go:135-165 | a request alone on a free key changes the tables and answers as `Create`, and leaves the store as `Serve` does around that answer |
| ExactlyOnce.AloneIsReplayed | internal/interfaces/http/middleware/idempotency.go:72-80 | a request alone on a taken key changes nothing and gets the 409, 422 or stored 201 that `Serve` gives |
| ExactlyOnce.ResendAfterLoss | internal/infrastructure/persistence/postgres/character_repo.go:60-80 | after the store lost its entry, a resend alone gets the id of the live row of its token and inserts nothing |
| ExactlyOnce.CreatedExactlyOnce | internal/infrastructure/persistence/postgres/character_repo.go:26-81 | for keys that are one text but for surrounding space, every 201 carries an id inserted under that text; two differ only if the first row was reclaimed |
| ExactlyOnce.ConfirmedAtMostOnce | views/10_character_write_functions.sql:144-183 | at most one row per token is confirmed in a whole run of both layers |
| ExactlyOnce.CacheAgrees | internal/interfaces/http/middleware/idempotency.go:110-139 | a cached create result holds the id and body hash of the request that inserted the row |
| ExactlyOnce.InserterIsNotMismatched | internal/interfaces/http/handler/character_handler.go:157-162 | the inserter's body gets the 422 only if some row of the token was reclaimed |
| Paging.ListingIsUnique | internal/infrastructure/persistence/postgres/sqlc/query.sql:54-55 | the order by creation time and id leaves one possible listing |
| Paging.ListCharacters | internal/infrastructure/persistence/postgres/sqlc/query.sql:48-57 | the query returns the cut of that one listing by offset and limit |
| Paging.PageOfListing | internal/infrastructure/persistence/postgres/sqlc/query.sql:56-57 | a page starts at the offset and runs to the limit or the end; 0 is no limit |
| Paging.BatchFetchIsComplete | internal/infrastructure/persistence/postgres/character_repo.go:167-185 | fetching by ids without a limit gives exactly the visible rows among them |
| Paging.List | internal/infrastructure/persistence/postgres/character_repo.go:167-185 | one record per row of the page, each showing its row, strictly ordered by creation time and id |
| Paging.Count | internal/infrastructure/persistence/postgres/character_repo.go:187-196 | the length of the full listing, whatever the page |
| Paging.CountIsLength | internal/infrastructure/persistence/postgres/sqlc/query.sql:59-62 | the count query counts the full listing |
| Paging.ListingByIdsIsBounded | internal/infrastructure/persistence/postgres/sqlc/query.sql:53 | a listing by ids is no longer than the ids given, repeats or not |
| Paging.PagingPartitions | internal/infrastructure/persistence/postgres/sqlc/query.sql:52-57 | pages of any size joined are exactly the visible rows asked for, strictly ordered, nothing repeated or missed |
| Handler.IfMatchAcceptsIff | internal/interfaces/http/handler/character_handler.go:369-392 | a version is accepted iff the header is one strong tag around a 64-bit decimal |
| Handler.IfMatchIsDecided | internal/interfaces/http/handler/character_handler.go:369-392 | none for a missing header or `*`, 412 exactly for weak tags, a version exactly for a strong tag around one, else 400 |
| Handler.ETagRoundTrip | internal/interfaces/http/handler/character_handler.go:395-397 | every int64 version is written as a quoted tag and read back from If-Match |
| Handler.WeakTagsAreRefused | internal/interfaces/http/handler/character_handler.go:374-377 | a weak tag is always refused with 412 |
| Handler.SuppliedIdsAreRead | internal/interfaces/http/handler/character_handler.go:70-90 | a blank id list is none; else its comma-separated parts are read, at most 500 of them |
| Handler.IdsOfOnePart | internal/interfaces/http/handler/character_handler.go:70-90 | a blank part adds no id, any other is trimmed and parsed, and a part that is no id spoils the list |
| Handler.IdsPartByPart | internal/interfaces/http/handler/character_handler.go:70-90 | lists are read part by part, in order |
| Handler.ParseListParams | internal/interfaces/http/handler/character_handler.go:70-111 | accepts exactly the queries within the limits and returns what they ask for, else 400 |
| Handler.AcceptedListsAreBounded | internal/interfaces/http/handler/character_handler.go:70-111 | an accepted query returns at most 500 distinct rows, 100 by default, none for an empty id list |

## Left out

- Routing, JSON binding, validator tags, CORS, rate limits, API keys, logging, health checks, configuration, migrations: no state property of the write path.
- `mapCharErr`: a fixed table from domain errors to statuses.
- Race use cases beyond adding, deleting when unused and the foreign key; race names are joined but never renamed, and their limit of 50 characters is not modelled.
- Texts: PostgreSQL truncates excess characters of a VARCHAR(100) or VARCHAR(150) when all of them are spaces, and rejects a text with a NUL character; here the first is rejected and the second stored.
- Convert.TenthsRoundTrip: goes through an exact real, where the code reads and writes a float32.
- IdempotencyStore.RedisStore.Begin: a stored value that does not decode, which this service never writes, is not modelled; the code answers it with an error.
- Floating point: body fat is a real, rounded to tenths as NUMERIC(4,1) does; NaN and infinities, and infinite dates, do not occur.
- Time zones: a birth date is the wall clock of the value sent, and its day is stored.
- SHA-256: only equality of body hashes is used. A result's encoding is distinct from the pending marker.
- PostgreSQL isolation: statements are atomic steps; a failed or timed-out statement is one that did not happen.
- The 32-bit row count of `gc_unconfirmed_characters`: the count is unbounded.
- Times are integers (microseconds in the table, seconds in Redis); a non-positive result TTL, which Redis takes as no expiry, is not configured anywhere and not modelled.
- The entity groups its twelve business fields in one record field that is assigned field by field.
- Failing stores in runs: `ExactlyOnce` lets saves and releases fail with or without effect and entries vanish at any time; `RedisRuns` has holders that never act, expiry, and no other loss; `MiddlewareRuns` is over the in-memory store, which never fails. In `ExactlyOnce` a stored result keeps no headers.
- `uuid.Parse` is a parameter of the list-parameter parser.
