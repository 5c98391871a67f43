# A verified model of franken-snowflake's store, planner and drift report

This project models four parts of the repository in Dafny and proves what they promise.

**The local store** (`Keys`, `Records`, `Utf8`, `LogText`, `LineFormat`, `Selection`, `Retention`, `StoreModel`,
`StoreTheorems`, `Maintenance`, `Crash`, `Replay`, `ReplayOrder`, `SqlStore`, `SqlImport`, `MemoryCache`, `StoreFields`,
`FileStore`). Ten line logs, which are bytes, are read lazily into in-memory maps; a log that is not UTF-8 does not load, and
every operation that needs it fails. Upsert tables keep the last record of a key, ledgers the first; upsert logs are compacted lazily and on
demand; retention rewrites tables. `StoreModel` is the state machine and the plain in-memory store it must answer like.
`FileStore.FileCache` and `MemoryCache` are the objects, with the loaded-table mask, the line counters, the temp files and the
loops; each of their operations is proved to take the state machine's step, so the theorems about runs are theorems about
them. `SqlStore` is the second backend, as a relation over sets of rows, and `SqlImport` the replay of the logs into it. The
line format is a parameter; `LineFormat` gives one that meets what is asked of it. What the shared definitions mean is then
told from the records and the bytes alone: `Histories` says which write of a key is found after any run, `Lookups` what each
lookup lists and in which order, `Evictions` who stays under retention, `LogLines` what a log's lines hold, and `Compactions`
which bytes each operation leaves and what a compaction reports.

**The dataset query planner** (`SqlText`, `SqlScanner`, `SqlMeaning`, `CatalogModel`, `Predicates`, `Clauses`, `Shapes`,
`Compiler`, `Planner`, `PlanQuery`, `PlanTheorems`). A predicate tree is compiled to SQL text with positional bindings. The
meaning of text is given independently: a lexer, a recursive-descent parser and a three-valued evaluator that know nothing of
the compiler. `Denote` gives the meaning of a tree; a compound without leaves means nothing rather than true. The methods
build strings and push to a binding table as the source does and are proved to return exactly `Planner.Plan`. `Ordinals`,
`Acceptance` and `PlanAnswers` tell the same from the catalog's rows and the request: which column a name finds, when a
request is refused and with which codes, which columns the statement has and which rows it keeps. `Comments` says what the
scanner makes of comments, which planned text has none of and raw text may have.

**Sequence algorithms** (`EditDistance`, `TypoMatch`, `Redaction`, `Needles`, `IdentifierPath`, `ObjectNames`, `Identity`),
each a loop proved against a recursive specification, and the specification proved to be what the function is for.

**Catalog drift** (`Diff`, `DiffSnapshots`, `DiffTheorems`, `DriftLaws`, `ColumnFacts`, `DriftCounts`, `DriftOrder`): the
report, the loops that build it, its laws over the tracked view of a snapshot (tracked manifest fields, and columns by
normalised name), what it sees and misses of the columns themselves, every one of them counted, and what its totals count.

`dafny verify dfyconfig.toml` checks the whole project.

## What the proofs found

- A request for a dataset with no catalog column is planned with an empty select list: the text is no statement. The plan is a
  statement exactly when the catalog lists a column (`PlanTheorems.PlanMeans`, `PlanTheorems.EmptyCatalogPlan`).
- A crash that cuts an appended line inside a character leaves a log that is not UTF-8. The load reads the whole file as text
  before it looks for lines, so the table never opens again: every later operation that needs it fails, and nothing the store
  does repairs it. The module comment of `file_cache.rs` promises that a malformed line is skipped rather than poisoning the
  store. Every cut of a write is safe if and only if the encoded record is ASCII (`Crash.EveryCrashReopensIffAscii`,
  `Crash.UnreadableStays`; the instance `Crash.TornLetter` is a profile displayed as "é").
- To the drift report two columns whose names are one up to case, underscores, dashes and spaces are one column. USER_ID and
  USERID against USER_ID alone is reported identical and not breaking (`ColumnFacts.DroppedSpelling`); if the two differ, the
  snapshot is reported as changed when compared with itself (`ColumnFacts.SelfDiffFails`). With distinct names on both sides
  the report and its breaking flag are exact (`ColumnFacts.IdenticalMeansSame`, `ColumnFacts.BreakingMeansLoss`), and every
  dropped column is listed if and only if the names are distinct (`ColumnFacts.EveryDropListedIffDistinct`).
- Breaking changes do not quite compose: a precision or scale that is given, then not given, then given smaller is never
  flagged step by step (`DriftLaws.BreakingComposes`, `DriftLaws.ForgottenPrecision`).
- The SQL backend refuses a record with a number of two to the 63 or more, which the other backends accept; that is the only
  way in which it can answer differently (`SqlStore.AgreementNeedsFit`; the instance is `SqlStore.LateReceipt`). An import of
  the logs leaves such a record out and counts it with the malformed lines (`SqlImport.ImportCount`).
- The module comment of `file_cache.rs` says that nothing can rewrite or delete a line. Compaction and retention do; what holds
  is that the audit log only grows: over every run its bytes at the start are the first of those at the end, and no audit
  record changes or goes (`Maintenance.AuditLogKeepsEverything`).

## Model

| member | source | states |
|---|---|---|
| StoreTheorems.RunsAgree | crates/franken-snowflake-cache/src/file_cache.rs:184-642 | Over every sequence of operations (writes accepted or refused, lookups, compactions, retentions, reopenings), from any store that meets the invariant, the file store gives exactly the answers of one in-memory store that starts with what the directory holds, and ends holding the same tables; the invariant (loaded map = fold of its log, count = valid lines, unloaded map empty) holds throughout |
| StoreTheorems.RunsFromEmptyDirectory | crates/franken-snowflake-cache/src/file_cache.rs:130-141 | From an empty directory the in-memory store of the comparison starts empty |
| StoreTheorems.StepAgrees | crates/franken-snowflake-cache/src/file_cache.rs:430-642 | One operation keeps the invariant, moves the durable tables as the in-memory step does and gives its answer |
| StoreTheorems.WriteKeeps | crates/franken-snowflake-cache/src/file_cache.rs:475-482 | A write keeps its table's invariant through loading, appending and lazy compaction; its durable contents become exactly the old ones with the record put, or stay if it is refused |
| StoreTheorems.RetainInv | crates/franken-snowflake-cache/src/file_cache.rs:445-473 | Retention over lazily loaded tables and rewritten logs is retention of the durable tables, with the same count |
| Histories.FindsLast | crates/franken-snowflake-cache/src/lib.rs:759-938 | Over every run of the file store: of the profiles, manifests, plans and partitions of one key, the last one accepted is the one its lookup answers; a partition, for as long as retention leaves one |
| Histories.FindsFirst | crates/franken-snowflake-cache/src/lib.rs:775-1024 | Over every run: of the snapshots, receipts, exports, costs, bundles and audit events of one key, the first one accepted is the one its lookup answers, and later ones change nothing; a snapshot or receipt, for as long as retention leaves one |
| Histories.FindsEarlier | crates/franken-snowflake-cache/src/file_cache.rs:475-642 | What the directory held is answered after every run that does not replace or remove it; a ledger's record also after runs that write its key again |
| Histories.FindsNothing | crates/franken-snowflake-cache/src/file_cache.rs:130-141 | From an empty directory, a key that a run does not write is not found after it |
| Histories.SqlFound | crates/franken-snowflake-cache/src/lib.rs:1110-1549 | After any run the SQL backend finds of a key what the maps find, of the records that its columns hold, so all of this is true of it too |
| Evictions.StoreRetains | crates/franken-snowflake-cache/src/file_cache.rs:445-473 | Retention, told of the durable tables before and after it and of the records' own fields: a receipt stays exactly when fewer receipts of its profile than the cap are greater by (time, id), a snapshot exactly when fewer of its profile, database and schema are; partitions go with their receipts; no other table changes; the count is what went |
| Evictions.MemRetains | crates/franken-snowflake-cache/src/lib.rs:685-747 | The same of the in-memory tables |
| Evictions.SqlRetains | crates/franken-snowflake-cache/src/lib.rs:1551-1612 | The same of the SQL backend's rows, whatever ordered listing its SELECT returns |
| Evictions.SmallProfileStays | crates/franken-snowflake-cache/src/lib.rs:686-712 | From a profile with no more receipts than the cap none is evicted |
| Evictions.SmallScopeStays | crates/franken-snowflake-cache/src/lib.rs:716-743 | From a profile, database and schema with no more snapshots than the cap none is evicted |
| LogLines.LogHolds | crates/franken-snowflake-cache/src/file_cache.rs:361-400 | Of any lines and any unterminated tail: a load reads exactly the lines that are not blank, decode and are accepted, each as its record, in order; it counts exactly those that are not blank and fail; one carriage return at a line's end, blank lines and the tail make no difference |
| LogLines.EveryText | crates/franken-snowflake-cache/src/file_cache.rs:373-385 | Every text is such lines and such a tail |
| LogLines.ReplayLeaves | crates/franken-snowflake-cache/src/file_cache.rs:278-324 | Folding records into an empty table leaves one of each key that occurs: the last for profiles, manifests, plans and partitions, the first for every other table |
| Compactions.WrittenLog | crates/franken-snowflake-cache/src/file_cache.rs:223-424 | The bytes that a write leaves: a refused record changes none; an accepted one is appended as one line; the log of a profile, manifest or plan is rewritten to one line a record exactly when it then has 64 lines or more, 64 of them superseded, and two or more a record |
| Compactions.CompactedLogs | crates/franken-snowflake-cache/src/file_cache.rs:184-221 | The bytes that compaction on demand leaves: the logs of profiles, manifests and plans with more lines than records are rewritten to one line a record, all others stay |
| Compactions.ReportMeans | crates/franken-snowflake-cache/src/file_cache.rs:184-221 | The report of a compaction: the valid lines of the three logs before it, those after it, and how many of the three it made shorter |
| Compactions.RetainedLogs | crates/franken-snowflake-cache/src/file_cache.rs:445-473 | The bytes that retention leaves: if it evicts anything the logs its policy concerns are rewritten to what is kept, else none is |
| Maintenance.MaintenanceIsInvisible | crates/franken-snowflake-cache/src/file_cache.rs:184-242 | Dropping every compaction and every reopening from a run changes no other answer and no table at the end |
| Maintenance.LazyCompactionAmortised | crates/franken-snowflake-cache/src/file_cache.rs:42-242 | Over any run, the lines lazy compaction writes to an upsert table plus the superseded lines left are at most the upserts made plus the superseded lines there at the start |
| Maintenance.WriteCost | crates/franken-snowflake-cache/src/file_cache.rs:223-242 | One write: lines rewritten plus superseded lines after it are at most the superseded lines before it plus one (plus none if refused) |
| Maintenance.UpsertLeavesShortLog | crates/franken-snowflake-cache/src/file_cache.rs:42-242 | After every accepted upsert the log has fewer valid lines than the records plus 64, or than twice the records |
| Maintenance.CompactionIsCanonical | crates/franken-snowflake-cache/src/file_cache.rs:184-221 | After compaction on demand an upsert table's log has exactly one valid line for each record |
| Maintenance.RetentionCountsWhatItRemoves | crates/franken-snowflake-cache/src/lib.rs:685-747 | The evicted count is the drop in receipts and snapshots |
| Maintenance.PartitionsFollowReceipts | crates/franken-snowflake-cache/src/lib.rs:714-721 | A partition disappears exactly when its receipt is evicted; the others are unchanged |
| Maintenance.RetentionIsIdempotent | crates/franken-snowflake-cache/src/lib.rs:685-747 | A second call with the same policy evicts nothing and changes nothing |
| Maintenance.RetainedText | crates/franken-snowflake-cache/src/file_cache.rs:445-473 | Retention changes neither log nor map of any table but receipts, partitions and snapshots |
| Maintenance.LogsOnlyGrow | crates/franken-snowflake-cache/src/file_cache.rs:402-482 | Over every run, from any store, the log of exports, costs, replay bundles or audit events at the start is the beginning of that log at the end |
| Maintenance.AuditLogKeepsEverything | crates/franken-snowflake-cache/src/file_cache.rs:244-258 | Over every run the audit log's bytes are kept at its front, and each audit record that a reopen finds at the start a reopen finds, unchanged, at the end |
| Maintenance.AuditRecordStays | crates/franken-snowflake-cache/src/lib.rs:1014-1024 | An audit record once written is found by a reopen after any further run, unless its key already held another, which then stays |
| Crash.CrashedWrite | crates/franken-snowflake-cache/src/file_cache.rs:244-424 | A crash before, inside or after any byte of the append, of the temp file or around the rename: cut inside a character of the appended line the table does not reopen; otherwise it reopens as before the write if its line was incomplete, and as after it if not |
| Crash.EveryCrashReopensIffAscii | crates/franken-snowflake-cache/src/file_cache.rs:373-417 | The table reopens after a crash at every point of an accepted write if and only if the encoded record is ASCII, which can be checked before the write |
| Crash.TornLetter | crates/franken-snowflake-cache/src/file_cache.rs:361-417 | An instance: a profile displayed as "é", the first of its table, cut between the two bytes of the letter. The table does not reopen, and through every run of a store opened on that directory every operation that needs profiles fails |
| Crash.UnreadableStays | crates/franken-snowflake-cache/src/file_cache.rs:278-380 | Through every run over a log that is not UTF-8, its bytes stay as they are and each operation that needs the table is answered with a failure |
| Utf8.CutIsUtf8 | crates/franken-snowflake-cache/src/file_cache.rs:373-376 | A UTF-8 text cut after k bytes is UTF-8 exactly when k is a character boundary |
| Utf8.EveryCutIsUtf8 | crates/franken-snowflake-cache/src/file_cache.rs:373-376 | Every cut of a UTF-8 text is UTF-8 exactly when the text is ASCII |
| Utf8.TextOfBytes | crates/franken-snowflake-cache/src/file_cache.rs:373-376 | Bytes are text exactly when they are the bytes of some sequence of characters |
| Crash.WriteFiles | crates/franken-snowflake-cache/src/file_cache.rs:402-482 | The disk events of a write, all done, leave the log that the write leaves |
| Crash.CrashedTableRewrite | crates/franken-snowflake-cache/src/file_cache.rs:244-269 | A crash inside a rewrite by compaction or retention leaves the table as it was; after the rename it holds the new map |
| LogText.CrashedAppend | crates/franken-snowflake-cache/src/file_cache.rs:361-424 | Of an appended line any first k bytes: a reopen refuses the log if k is inside a character, gives the old contents at any other k, and the contents with the record put once the line is whole |
| LogText.AppendAfterTornTail | crates/franken-snowflake-cache/src/file_cache.rs:382-400 | After a torn tail that is text, what an append adds is what the glued line happens to hold, if anything |
| LogText.AppendAddsRecord | crates/franken-snowflake-cache/src/file_cache.rs:402-424 | On a log without a torn tail an append adds exactly its record |
| LogText.RewriteKeepsContents | crates/franken-snowflake-cache/src/file_cache.rs:244-269 | A log rewritten to the map's values in key order reads back as that map, one line a record |
| LineFormat.LineCodecIsFaithful | crates/franken-snowflake-cache/src/file_cache.rs:402-416 | There is a line format such as the store theorems ask for: every record, of every character, is encoded on one UTF-8 line and read back as itself, for any acceptance test |
| Records.ReplaySurvivesInterruption | crates/franken-snowflake-cache/src/file_cache.rs:163-179 | Replaying a prefix of a log into any target and then the whole log is one replay of the whole log, for last-write-wins tables and first-write-wins ledgers alike |
| Records.CanonicalRebuilds | crates/franken-snowflake-cache/src/file_cache.rs:244-269 | Replaying a table's values in key order into an empty table rebuilds it |
| Replay.InterruptedReplay | crates/franken-snowflake-cache/src/file_cache.rs:163-179 | A replay of all ten logs broken off at any point and repeated in full leaves what one full replay leaves |
| Replay.ReplayIsReopening | crates/franken-snowflake-cache/src/file_cache.rs:163-179 | Replayed into an empty store, the logs give the tables this store answers from |
| Replay.ReplayCompletes | crates/franken-snowflake-cache/src/file_cache.rs:326-359 | A replay of ten logs that are all text completes and puts every valid record of each table, in order |
| ReplayOrder.ReplayStops | crates/franken-snowflake-cache/src/file_cache.rs:163-179 | A replay that meets a log which is not text leaves every table before it, by index, with its records put, and that one and all after it as they were |
| ReplayOrder.TablesByIndex | crates/franken-snowflake-cache/src/file_cache.rs:48-111 | The tables are taken by the index that is their bit in the mask |
| SqlImport.ReplayInto | crates/franken-snowflake-cli/src/local_store.rs:181-206 | The replay into the SQL backend, up to the first log that is not text: the rows are those of the maps after a replay that also refuses what the columns cannot hold, the lines not replayed are counted, and the file store, its counter included, stays as it was |
| SqlImport.ImportCount | crates/franken-snowflake-cli/src/local_store.rs:192-204 | The import's count is the lines that a replay into the maps would leave out plus the records that the columns cannot hold |
| SqlImport.InterruptedImport | crates/franken-snowflake-cli/src/local_store.rs:181-206 | An import broken off at any point of each log and repeated in full leaves the rows of one full import |
| SqlImport.ImportChangesNoAnswer | crates/franken-snowflake-cli/src/local_store.rs:181-206 | After the import of a store whose records all fit, over any further run that fits, the only answers the database can give are those the file store would have given |
| FileStore.FileCache.constructor | crates/franken-snowflake-cache/src/file_cache.rs:130-141 | Opening reads nothing: no table is loaded, no line counted |
| FileStore.FileCache.EnsureTableLoaded | crates/franken-snowflake-cache/src/file_cache.rs:278-324 | Reads an unread table once: its map is the fold of its log, its bit alone is set in the 16-bit mask, its count and the skipped lines are taken; a read table is left alone; a log that is not UTF-8 fails and changes nothing |
| FileStore.FileCache.LoadLines | crates/franken-snowflake-cache/src/file_cache.rs:361-400 | Refuses a log that is not UTF-8, touching nothing; of any other the line loop applies exactly the valid records, in order, to the target and counts valid and skipped lines |
| FileStore.FileCache.AppendLine | crates/franken-snowflake-cache/src/file_cache.rs:402-424 | Appends one encoded line to that table's log only and counts it |
| FileStore.FileCache.RewriteTableAtomic | crates/franken-snowflake-cache/src/file_cache.rs:244-269 | Writes the encoded records to the temp file and renames it over that table's log; no other log changes; never the audit log |
| FileStore.FileCache.MaybeLazyCompactUpsert | crates/franken-snowflake-cache/src/file_cache.rs:223-242 | Rewrites the log to its canonical records exactly when the lazy policy says so, and changes no map |
| FileStore.FileCache.CompactUpsertTables | crates/franken-snowflake-cache/src/file_cache.rs:184-221 | Takes the store to its compacted state and reports the lines before and after and the tables rewritten (`Compactions.ReportMeans`), or fails at the first upsert log that does not load |
| FileStore.FileCache.Write | crates/franken-snowflake-cache/src/file_cache.rs:475-642 | Every upsert and append takes the store model's write step and gives its answer: done, refused, or the load failed; which record of a key that leaves is `Histories.FindsLast` and `Histories.FindsFirst`, which bytes `Compactions.WrittenLog` |
| FileStore.FileCache.Lookup | crates/franken-snowflake-cache/src/file_cache.rs:484-642 | Every lookup loads its table and answers from the loaded map, or fails with the load |
| FileStore.FileCache.ApplyRetention | crates/franken-snowflake-cache/src/file_cache.rs:445-473 | Takes the store model's retention step and returns its answer; which records stay is `Evictions.StoreRetains`, which logs are rewritten `Compactions.RetainedLogs`; nothing is evicted when a log does not load |
| FileStore.FileCache.ReplayInto | crates/franken-snowflake-cache/src/file_cache.rs:173-179 | Folds the logs in order, up to the first that is not text, into an in-memory target, returns the lines not replayed, and leaves this store and its counter as they were (`SqlImport.ReplayInto` has the SQL target) |
| FileStore.FileCache.SkippedLines | crates/franken-snowflake-cache/src/file_cache.rs:158-161 | Loads the tables in order up to the first that fails and returns the lines skipped by this handle: those before, and those of the tables just read |
| MemoryCache.InMemoryCache.Apply | crates/franken-snowflake-cache/src/lib.rs:759-1024 | Validates, then inserts (upserts and partitions) or keeps the first record of a key (ledgers); which that is for each kind of record is `Histories.FindsLast` and `Histories.FindsFirst` |
| MemoryCache.InMemoryCache.ApplyRetention | crates/franken-snowflake-cache/src/lib.rs:685-747 | The grouping and removal loops leave exactly the retained tables and return the count; which records those are is `Evictions.MemRetains` |
| StoreFields.SetBitMarksOne | crates/franken-snowflake-cache/src/file_cache.rs:93-111 | Setting a table's bit in the mask marks that table and no other |
| Selection.MemAnswerIsSqlAnswer | crates/franken-snowflake-cache/src/lib.rs:767-1039 | Every in-memory lookup over the ordered maps is the answer of the SQL backend's WHERE, ORDER BY and LIMIT 1 over the same rows, ties included |
| Selection.SqlAnswerUnique | crates/franken-snowflake-cache/src/lib.rs:1195-1549 | A SELECT has one answer: its order is total on the rows |
| Keys.StringLessMeans | crates/franken-snowflake-cache/src/lib.rs:687-747 | Ids are ordered by the first character in which they differ, a beginning first |
| Selection.LatestIsHead | crates/franken-snowflake-cache/src/lib.rs:793-841 | The latest snapshot of a scope is the head of its snapshot list (`Lookups.SnapshotsAnswer`) |
| Lookups.SnapshotsAnswer | crates/franken-snowflake-cache/src/lib.rs:817-841 | The snapshots of a profile in the given database and schema, or in any: exactly those, the latest first, of equal times the greater id first |
| Lookups.LatestSuccessfulAnswer | crates/franken-snowflake-cache/src/lib.rs:887-896 | The latest receipt of the plan whose outcome is "ok", if there is one |
| Lookups.LatestByQueryIdAnswer | crates/franken-snowflake-cache/src/lib.rs:898-919 | The latest receipt of the profile with that query id, if there is one |
| Lookups.PartitionsAnswer | crates/franken-snowflake-cache/src/lib.rs:927-938 | Exactly the partitions of the receipt, by ascending index |
| Lookups.ExportsAnswer | crates/franken-snowflake-cache/src/lib.rs:955-972 | Exactly the exports of the receipt, the latest first, of equal times the smaller id first |
| Lookups.CostsAnswer | crates/franken-snowflake-cache/src/lib.rs:987-1002 | Exactly the cost rows of the profile, in the same order |
| Lookups.AuditEventsAnswer | crates/franken-snowflake-cache/src/lib.rs:1026-1039 | Every audit event, the oldest first, of equal times the smaller id first |
| Lookups.ProfilesAnswer | crates/franken-snowflake-cache/src/lib.rs:771-773 | Every profile, by ascending id |
| Lookups.ManifestsAnswer | crates/franken-snowflake-cache/src/lib.rs:855-857 | Every manifest, by ascending id |
| SqlStore.SqlRunsAgree | crates/franken-snowflake-cache/src/lib.rs:1110-1612 | For every run, the answers the SQL backend can give are exactly those of the in-memory store that also refuses any record with a number of two to the 63 or more |
| SqlStore.AgreementNeedsFit | crates/franken-snowflake-cache/src/lib.rs:1814-1828 | The SQL backend can give the in-memory answers if and only if the numbers of every accepted record (times, partition index, and those of the body) are below two to the 63; and then it can give no others |
| SqlStore.FitsByFields | crates/franken-snowflake-cache/src/lib.rs:1814-1828 | Those numbers, record by record: the time of a snapshot, receipt, export, cost row or audit event, the index of a partition, and the numbers of any record's body |
| SqlStore.LateReceipt | crates/franken-snowflake-cache/src/lib.rs:1819-1825 | An instance: a receipt of the millisecond two to the 63 is taken by the maps and refused by the SQL backend |
| SqlStore.FileAndSqlAgree | crates/franken-snowflake-cache/src/file_cache.rs:793-811 | The file store and the SQL backend, holding the same records: the SQL backend can answer as a run of the file store does if and only if the numbers of every accepted record fit, and then in no other way |
| SqlStore.InsertIsPut | crates/franken-snowflake-cache/src/lib.rs:1115-1538 | INSERT OR REPLACE and INSERT OR IGNORE do to the rows what the map operations do to the map; which record of a key that leaves is `Histories.SqlFound` |
| SqlStore.RetentionAgrees | crates/franken-snowflake-cache/src/lib.rs:1551-1612 | Whatever ordered listing the retention SELECT returns, its DELETEs leave exactly the in-memory retention's rows, and the count is the same; which rows those are is `Evictions.SqlRetains` |
| Retention.KeptIsGroupPrefix | crates/franken-snowflake-cache/src/lib.rs:694-702 | In each scope, listed newest first by (time, id), a record stays exactly when it is among the first k; the scopes, by the records' fields, are in `Evictions.MemRetains` |
| Retention.RetainTwice | crates/franken-snowflake-cache/src/lib.rs:685-747 | Keeping the k newest twice is keeping them once |
| Retention.CollectDropped | crates/franken-snowflake-cache/src/lib.rs:687-705 | The grouping loop collects exactly the ids past the cap of their scope |
| Retention.RemoveAll | crates/franken-snowflake-cache/src/lib.rs:706-718 | The removal loop removes exactly those ids and counts them |
| Retention.RetainTable | crates/franken-snowflake-cache/src/lib.rs:685-747 | One table: what is kept, what is evicted, and that the count is the size drop |
| PlanTheorems.PlanMeans | crates/franken-snowflake-catalog/src/planner.rs:270-401 | For every request planned with the built-in operators: the text lexes; text and bindings parse as one statement if and only if the catalog lists a column of the dataset; that statement selects the projected columns (`PlanAnswers.SelectedColumns`, `PlanAnswers.ManifestColumns` and `PlanAnswers.EveryColumn` say which) of the object at the requested time, its condition has on every row the three-valued truth the request denotes (`PlanAnswers.RowsKept`), and it is limited by the row limit |
| PlanAnswers.SelectedColumns | crates/franken-snowflake-catalog/src/planner.rs:633-651 | With a select list, the parsed statement has one column for each name, in order: that of the first row of the dataset, by ordinal, whose normalised name is the name's |
| PlanAnswers.ManifestColumns | crates/franken-snowflake-catalog/src/planner.rs:620-626 | Without one, the columns of the manifest's fields, in the manifest's order, without those the catalog does not list |
| PlanAnswers.EveryColumn | crates/franken-snowflake-catalog/src/planner.rs:627-630 | And if the catalog lists the column of no field, every row of the dataset, by ascending ordinal; the statement parses exactly when there is one |
| PlanAnswers.RowsKept | crates/franken-snowflake-catalog/src/planner.rs:717-786 | The statement keeps a row exactly when the cell of the first EntityKey field's column compares equal to the entity, that of the first TimeIndex field's column is not below `from` and not above `to`, and the filter is true or says nothing |
| PlanAnswers.RestOfStatement | crates/franken-snowflake-catalog/src/planner.rs:270-401 | The object, the time, the request's limit or else the manifest's, bound FIXED; and the push-down summary: the columns of the statement, one axis filter for each axis value, one predicate filter for each leaf |
| PlanAnswers.LeafMeans | crates/franken-snowflake-catalog/src/planner.rs:866-922 | A validated leaf has on every row the value its operator's name promises of the cell of the first column its name finds: eq, neq, lt, lte, gt, gte by the sign of the comparison, between by two, in by any, contains by the position, is_null and is_not_null by the cell |
| PlanAnswers.CompoundMeans | crates/franken-snowflake-catalog/src/planner.rs:807-839 | A compound is false exactly when an and child is, or every or child that says anything and one does, or its not child is true; it is true or says nothing exactly when all and children are or do, one or child is true or none says anything, and the not child is false or says nothing |
| PlanAnswers.SaysSomething | crates/franken-snowflake-catalog/src/planner.rs:788-805 | A tree says something exactly when it has a leaf |
| PlanAnswers.BindingMeans | crates/franken-snowflake-catalog/src/planner.rs:977-1027 | A numeral (digits, perhaps after a minus) compared with a number binds FIXED, true and false in any case compared with a boolean bind BOOLEAN in lower case, and everything else binds TEXT as it is |
| Acceptance.AcceptedWhenNothingIsWrong | crates/franken-snowflake-catalog/src/planner.rs:270-401 | With a safety step that refuses nothing: a plan exactly when the dataset is the manifest's and nothing is wrong with the request; else exactly the codes of what is wrong |
| Acceptance.RefusedFor | crates/franken-snowflake-catalog/src/planner.rs:478-715 | What is wrong, code by code: a name, an axis or a leaf without a column; time travel without a known_at or time_index field; an unknown operator; a number of values or a column type that the operator's name does not take; and, without export mode, a limit above the manifest's rows, or above 10000 without confirmation |
| Acceptance.RefusalList | crates/franken-snowflake-catalog/src/planner.rs:290-308 | The refusals in their order and number: names, entity axis, time axis, time travel, leaves from left to right, row limit (twice where both rules refuse it) |
| Acceptance.LeafRefusalList | crates/franken-snowflake-catalog/src/predicate.rs:106-168 | The refusals of a leaf in their order: unknown column, unknown operator, by the request's names; or else arity, then type, by the catalogs' names |
| Acceptance.OperatorTakes | crates/franken-snowflake-catalog/src/operator.rs:74-115 | The built-in operators by name: which there are, which column types each takes and how many values |
| Acceptance.TreeRefusals | crates/franken-snowflake-catalog/src/predicate.rs:84-104 | A tree is refused with exactly what its leaves are refused with, from left to right; its leaf count is their number |
| Ordinals.OrdinalOrder | crates/franken-snowflake-catalog/src/planner.rs:602-612 | The columns of a dataset are exactly its rows, each once, by ascending ordinal, rows of one ordinal in the order in which they are listed |
| Ordinals.ListsUnique | crates/franken-snowflake-catalog/src/planner.rs:602-612 | There is one such list |
| Ordinals.FoundIsFirst | crates/franken-snowflake-catalog/src/planner.rs:966-975 | A name finds the first row in that order whose normalised name is its own, and nothing exactly when there is none |
| Ordinals.NormalizedCharacter | crates/franken-snowflake-catalog/src/model.rs:594-602 | An underscore, a dash or white space anywhere in a name changes nothing; any other character counts in lower case |
| PlanTheorems.EmptyCatalogPlan | crates/franken-snowflake-catalog/src/planner.rs:314-373 | A dataset with no catalog column is planned, with an empty select list, and the text is no statement |
| PlanTheorems.ProjectionEmpty | crates/franken-snowflake-catalog/src/planner.rs:614-652 | An accepted request projects no column exactly when the catalog lists none |
| PlanTheorems.WhereMeans | crates/franken-snowflake-catalog/src/planner.rs:717-922 | On every row and under every server, the WHERE condition has the truth value of the axes and the filter tree together |
| Shapes.ShapeMeans | crates/franken-snowflake-catalog/src/planner.rs:769-922 | Compilation preserves three-valued meaning for every tree that compiles; a tree without leaves prints nothing |
| Clauses.ReadClause | crates/franken-snowflake-catalog/src/planner.rs:807-864 | The printed pieces of any AND list are read back, under NOT over AND over OR with BETWEEN owning its AND, as the condition they stand for, consuming exactly their bindings |
| Clauses.ReadFactor | crates/franken-snowflake-catalog/src/planner.rs:807-864 | So are those of any factor: a test, a bracketed list, or a negation |
| Clauses.ReadAlternatives | crates/franken-snowflake-catalog/src/planner.rs:841-864 | And those of any OR list |
| PlanTheorems.ScannerSeesOnlyThePlanner | crates/franken-snowflake-catalog/src/planner.rs:1102-1179 | Over any planned text the repository's scanner ends in the Normal state, finds no semicolon and reports only the planner's fixed words, whatever the identifiers and the time literal hold |
| SqlScanner.ScannerSeesOnlyPieces | crates/franken-snowflake-catalog/src/planner.rs:1102-1179 | Over any chain of quoted names, escaped literals, words, symbols and placeholders the scanner reports exactly the words in order and meets exactly the placeholders' question marks |
| SqlScanner.ExecutableSqlTokens | crates/franken-snowflake-catalog/src/planner.rs:1102-1194 | The scanner's loop is the state machine turn by turn: words, semicolon flag, placeholder offsets and final mode |
| Comments.BlockCommentIsBlank | crates/franken-snowflake-catalog/src/planner.rs:1154-1167 | A block comment, with any text and any comments nested in it, is scanned as a blank: it ends a word, and nothing in it is seen |
| Comments.LineCommentIsBlank | crates/franken-snowflake-catalog/src/planner.rs:1149-1153 | So is a line comment, up to the line feed or carriage return that ends it |
| Comments.LastLineIsBlank | crates/franken-snowflake-catalog/src/planner.rs:1149-1153 | A line comment at the end of the text needs none |
| Comments.CommentInFront | crates/franken-snowflake-catalog/src/planner.rs:1102-1179 | A text and the same text after a comment report the same words and the same semicolon |
| PlanTheorems.PlaceholdersMatchBindings | crates/franken-snowflake-catalog/src/planner.rs:977-1009 | The binding keys of every plan are exactly the decimals 1..n, the scanner meets n question marks, and the k-th from the left is the one bound as k |
| PlanTheorems.BindingOrder | crates/franken-snowflake-catalog/src/planner.rs:338-373 | The bindings in order: entity, from, to, the filter's leaf values in text order, and the row limit as FIXED |
| PlanTheorems.ValidationImpliesCompilation | crates/franken-snowflake-catalog/src/planner.rs:347-360 | With the built-in operators a request without refusals is never refused by the compiler, and every leaf is reported pushed down |
| Shapes.ValidLeafCompiles | crates/franken-snowflake-catalog/src/predicate.rs:106-168 | A validated leaf has as many values as its operator reads (the empty default is never used) and prints no empty IN list |
| Shapes.ValidTreeCompiles | crates/franken-snowflake-catalog/src/predicate.rs:84-104 | A validated tree compiles to a printable clause |
| Shapes.ShapePrintsLeaves | crates/franken-snowflake-catalog/src/planner.rs:788-805 | A tree compiles to text exactly when its leaf count is positive |
| Predicates.BuiltInsAreKnown | crates/franken-snowflake-catalog/src/operator.rs:74-115 | Every built-in operator is one the compiler knows, and its arity is that of its name |
| Predicates.ValidateLeaf | crates/franken-snowflake-catalog/src/predicate.rs:106-168 | The leaf validation pushes exactly the refusals of the leaf |
| Predicates.ValidateNode | crates/franken-snowflake-catalog/src/predicate.rs:84-104 | The tree validation pushes the refusals of all its leaves in order |
| Compiler.BindingTable.Push | crates/franken-snowflake-catalog/src/planner.rs:977-1009 | Pushing adds one binding under the next decimal key and returns a question mark |
| Compiler.KeyedExact | crates/franken-snowflake-catalog/src/planner.rs:977-1009 | The keys of n pushed bindings are exactly the decimals 1..n, and key k holds the k-th value pushed |
| Compiler.CompileLeaf | crates/franken-snowflake-catalog/src/planner.rs:866-922 | The leaf compiler returns exactly the text of the leaf's test and pushes exactly its bindings, or the refusal |
| Compiler.CompileCompound | crates/franken-snowflake-catalog/src/planner.rs:807-839 | The compound compiler joins its parts, without outer parentheses, to exactly the text and bindings of its clause |
| Compiler.CompileMany | crates/franken-snowflake-catalog/src/planner.rs:841-864 | The list compiler brackets its non-empty children joined by the joiner, and counts their leaves |
| PlanQuery.PlanDatasetQuery | crates/franken-snowflake-catalog/src/planner.rs:270-401 | The planner method returns exactly the specified plan: refusals in order (`Acceptance.RefusalList`), or text, bindings and push-down summary (`PlanAnswers.RestOfStatement`) |
| PlanQuery.AddAxisFilters | crates/franken-snowflake-catalog/src/planner.rs:717-757 | Pushes the entity and time tests, with their texts and bindings, in order |
| PlanQuery.ResolveProjection | crates/franken-snowflake-catalog/src/planner.rs:614-652 | Resolves requested or manifest columns to catalog columns, with a refusal for each unknown one; which columns those are is `PlanAnswers.SelectedColumns`, `PlanAnswers.ManifestColumns` and `PlanAnswers.EveryColumn` |
| Planner.TextOfPlan | crates/franken-snowflake-catalog/src/planner.rs:314-373 | The text of a plan is its front, its WHERE and its LIMIT placeholder; its bindings are those of WHERE and the limit |
| Planner.WhereJoins | crates/franken-snowflake-catalog/src/planner.rs:362-366 | Joining the tests' texts with AND is the text of the clause they make |
| SqlText.LexRendered | crates/franken-snowflake-catalog/src/planner.rs:314-373 | Any chain of pieces lexes back, by maximal words and operators, to exactly its tokens |
| SqlText.QuotedIdentifierReadsBack | crates/franken-snowflake-catalog/src/planner.rs:1031-1035 | A name with its quotes doubled reads back as the name, whatever it holds |
| SqlText.EscapedLiteralReadsBack | crates/franken-snowflake-catalog/src/planner.rs:950-964 | A literal with quotes and backslashes escaped reads back as the value |
| SqlText.EscapeSnowflakeLiteral | crates/franken-snowflake-catalog/src/planner.rs:954-964 | The escaping loop doubles every quote and every backslash and nothing else |
| IdentifierPath.SplitUndoesQuoting | crates/franken-snowflake-catalog/src/relations.rs:730-769 | Splitting a quoted path gives its parts back if and only if none is empty |
| IdentifierPath.ObjectPathRoundTrip | crates/franken-snowflake-catalog/src/relations.rs:713-728 | The quoted three-part name of any object with non-empty parts parses back as that object |
| ObjectNames.TypedPath | crates/franken-snowflake-catalog/src/relations.rs:713-769 | A path as it is typed, bare and quoted parts mixed, white space around it: a bare part stands for itself in upper case, a quoted one for what it quotes; one part is an object of the given schema, two an object of the given database, three a full name; any other number, or an empty part, is refused |
| ObjectNames.PathSplits | crates/franken-snowflake-catalog/src/relations.rs:730-769 | A path of any number of parts splits into what they stand for, if and only if none is empty |
| IdentifierPath.QuotingIsCanonical | crates/franken-snowflake-catalog/src/relations.rs:730-769 | Quoting the parts of any accepted path and splitting again gives the same parts |
| IdentifierPath.SplitPath | crates/franken-snowflake-catalog/src/relations.rs:730-769 | The cursor loops return exactly the specified split, or nothing on a malformed path |
| IdentifierPath.ReadQuotedPart | crates/franken-snowflake-catalog/src/relations.rs:738-752 | The loop over a quoted part undoubles quotes and stops after the closing one |
| Identity.IdentityInjective | crates/franken-snowflake-catalog/src/discovery.rs:456-469 | Two objects with equal length-prefixed identity bytes are the same object, for all byte strings |
| Identity.PartPrefixFree | crates/franken-snowflake-catalog/src/discovery.rs:464-469 | No encoded part is the beginning of another's text: what follows it is determined too |
| Identity.DatasetIdentity | crates/franken-snowflake-catalog/src/discovery.rs:456-462 | The bytes pushed for database, schema and object |
| Identity.IdentityOf | crates/franken-snowflake-catalog/src/discovery.rs:456-469 | An instance: database DB, schema S and object T give the bytes "2:DB;1:S;1:T;" |
| EditDistance.Levenshtein | crates/franken-snowflake-catalog/src/predicate.rs:298-316 | The two-row table returns the recursive edit distance |
| EditDistance.DistIsShortestChain | crates/franken-snowflake-catalog/src/predicate.rs:298-316 | The distance is the length of a shortest chain of single-character insertions, deletions and substitutions |
| EditDistance.DistSymmetric | crates/franken-snowflake-catalog/src/predicate.rs:298-316 | The distance is symmetric |
| EditDistance.DistZero | crates/franken-snowflake-catalog/src/predicate.rs:298-316 | It is zero exactly on equal strings |
| EditDistance.DistBounds | crates/franken-snowflake-catalog/src/predicate.rs:298-316 | It is at most the longer length and at least the difference of the lengths |
| EditDistance.DistTriangle | crates/franken-snowflake-catalog/src/predicate.rs:298-316 | It satisfies the triangle inequality |
| TypoMatch.IsTypoMatch | crates/franken-snowflake-catalog/src/search.rs:116-154 | True exactly when both words have five characters or more, share the first, and differ by one insertion, deletion, substitution or adjacent transposition |
| TypoMatch.ScanExact | crates/franken-snowflake-catalog/src/search.rs:136-153 | The greedy single-skip scan succeeds exactly when the longer word is the shorter one with one character inserted |
| Redaction.RedactionIsComplete | crates/franken-snowflake-auth/src/lib.rs:1632-1650 | For every input and every explicit needles, the result holds none of the policy's secret prefixes |
| Redaction.RedactionFixesExactlyCleanTexts | crates/franken-snowflake-auth/src/lib.rs:1632-1650 | Without explicit needles, a text is unchanged exactly when it holds no secret prefix, and a second pass changes nothing |
| Needles.ExplicitNeedlesAreGone | crates/franken-snowflake-auth/src/lib.rs:1632-1650 | Every explicit needle that the replacement can be no part of (no bracket, and a character that is not in it) is gone from the result, whatever the text and the other needles |
| Needles.ReplaceSplits | crates/franken-snowflake-auth/src/lib.rs:1641-1643 | One needle: the text before its first occurrence stays, the occurrence is replaced, and the rest goes the same way |
| Needles.OneNeedle | crates/franken-snowflake-auth/src/lib.rs:1632-1650 | Where that leaves no policy prefix, it is the whole result |
| Needles.ReplaceNothing | crates/franken-snowflake-auth/src/lib.rs:1641-1643 | A text without the needle is left as it is |
| Needles.LongestGoesFirst | crates/franken-snowflake-auth/src/lib.rs:1636-1643 | The longest needle is replaced before any other |
| Needles.LongestFirstSorts | crates/franken-snowflake-auth/src/lib.rs:1640-1646 | Needles and prefixes are taken by falling length in bytes, each as often as it was given |
| Needles.NoSecretShows | crates/franken-snowflake-auth/src/redaction_policy.rs:11-32 | None of the twenty ways in which a key, a token or a private key begins is in any result |
| Needles.NoSecretNoChange | crates/franken-snowflake-auth/src/redaction_policy.rs:11-32 | Without explicit needles a text is unchanged exactly when it shows none of them |
| Redaction.PassRemoves | crates/franken-snowflake-auth/src/lib.rs:1811-1841 | One pass leaves no occurrence of its prefix |
| Redaction.PassKeepsClean | crates/franken-snowflake-auth/src/lib.rs:1811-1841 | One pass creates no occurrence of any other prefix |
| Redaction.TokenIsMasked | crates/franken-snowflake-auth/src/lib.rs:1828-1836 | For a prefix without white space: the whole token, up to the white space or the quote, comma, semicolon or closing bracket that ends it, is replaced, and the text before and after it stays |
| Redaction.PemBlockIsMasked | crates/franken-snowflake-auth/src/lib.rs:1817-1852 | For a private-key header: everything from the header through the line of the first END marker is replaced, and the text before the header and after that line stays |
| Redaction.PemRestIsMasked | crates/franken-snowflake-auth/src/lib.rs:1843-1856 | Without an END marker everything from the header on is replaced |
| Redaction.RedactPrefixedTokens | crates/franken-snowflake-auth/src/lib.rs:1811-1841 | The loop over the shrinking remainder terminates and returns the specified text |
| Redaction.RedactWithPolicy | crates/franken-snowflake-auth/src/lib.rs:1632-1650 | Explicit needles longest first, then every prefix longest first; what that removes and leaves is `Needles.ExplicitNeedlesAreGone`, `Needles.ReplaceSplits` and `Redaction.RedactionIsComplete` |
| Redaction.PrefixesOk | crates/franken-snowflake-auth/src/redaction_policy.rs:2-32 | Every policy prefix starts with no delimiter, holds no bracket and cannot be recreated by the replacement |
| DiffTheorems.IdenticalIsExact | crates/franken-snowflake-catalog/src/diff.rs:205-478 | For all snapshots: the report says identical exactly when the views (one column a normalised name) are equal, the relations, where both snapshots looked for them, are the same, and base columns of one normalised name agree |
| DiffTheorems.SelfDiffIsIdentical | crates/franken-snowflake-catalog/src/diff.rs:263-269 | A snapshot compared with itself is reported identical if and only if its columns of one normalised name agree |
| DiffTheorems.PatchGivesTarget | crates/franken-snowflake-catalog/src/diff.rs:205-478 | Patching the base's view with the report gives the target's: for every id of both its tracked fields and its columns by normalised name, and exactly the target's other ids |
| DiffTheorems.ColumnsPatch | crates/franken-snowflake-catalog/src/diff.rs:236-370 | Dropping the removed columns, changing the modified ones and adding the added ones turns the base's columns by normalised name into the target's |
| ColumnFacts.IdenticalMeansSame | crates/franken-snowflake-catalog/src/diff.rs:205-478 | With distinct dataset ids and distinct normalised names on both sides, the report says identical exactly when the two snapshots have the same datasets, each with the same tracked fields and the same columns (as multisets), and the same relations where both looked for them |
| ColumnFacts.BreakingMeansLoss | crates/franken-snowflake-catalog/src/diff.rs:263-319 | With distinct ids and names on both sides, the breaking flag is set exactly when a dataset is gone, a column of a common dataset is gone, or a common column breaks |
| ColumnFacts.ListedIffAlone | crates/franken-snowflake-catalog/src/diff.rs:241-261 | A dropped column is listed as removed, and an added one as added, if and only if no other column of its dataset has its normalised name |
| ColumnFacts.EveryDropListedIffDistinct | crates/franken-snowflake-catalog/src/diff.rs:252-261 | Every drop of one column is listed if and only if the normalised names are distinct |
| ColumnFacts.DropUnseen | crates/franken-snowflake-catalog/src/diff.rs:241-426 | A drop leaves no trace in the report, and no breaking flag, if and only if columns of one name agree and another column has the dropped one's name |
| ColumnFacts.AddUnseen | crates/franken-snowflake-catalog/src/diff.rs:241-426 | An addition leaves no trace if and only if the other columns of one name agree and the first of the added one's name keeps its tracked fields |
| ColumnFacts.DroppedSpelling | crates/franken-snowflake-catalog/src/diff.rs:252-261 | An instance: columns USER_ID and USERID against USER_ID alone - two columns have become one, and the report says identical and not breaking |
| ColumnFacts.SelfDiffFails | crates/franken-snowflake-catalog/src/diff.rs:263-269 | An instance: a number USER_ID and a text USERID - the snapshot compared with itself is reported as changed |
| ColumnFacts.ColumnsExactWhenDistinct | crates/franken-snowflake-catalog/src/diff.rs:236-370 | With distinct names on both sides of a dataset, the added, removed and modified lists are all empty exactly when the two sides have the same columns (as multisets) |
| ColumnFacts.PatchGivesEveryColumn | crates/franken-snowflake-catalog/src/diff.rs:236-370 | Where base columns of one name agree and the target's names are distinct, the patched columns are the target's, each of them |
| ColumnFacts.PatchGivesTargetColumns | crates/franken-snowflake-catalog/src/diff.rs:236-370 | With distinct ids and names, patching the base with the report gives, for every common dataset, every column of the target (as a multiset) |
| DriftLaws.SwapReverses | crates/franken-snowflake-catalog/src/diff.rs:205-478 | Where columns of one normalised name agree on both sides, swapping the snapshots swaps added with removed datasets and relations and keeps the verdict identical or not |
| DriftLaws.SwapDataset | crates/franken-snowflake-catalog/src/diff.rs:233-426 | Under the same condition, for a common dataset it swaps added with removed columns, exchanges old and new in every column change, and reports the dataset the other way exactly when this way |
| DriftLaws.ModifiedReverses | crates/franken-snowflake-catalog/src/diff.rs:263-370 | Where base columns of one normalised name agree, every reported column change is reported the other way round with old and new exchanged |
| DriftLaws.BreakingIsExact | crates/franken-snowflake-catalog/src/diff.rs:271-319 | When base columns of one normalised name agree, the breaking flag is set exactly when a dataset or a normalised name is gone, or the first column of a name changes class, loses nullability or is given a smaller precision or scale |
| DriftLaws.BreakingComposes | crates/franken-snowflake-catalog/src/diff.rs:300-319 | Where columns of one normalised name agree: when neither of two steps is breaking, the two together are breaking if and only if a precision or scale was given, not given in between, and given again smaller |
| DriftLaws.ForgottenPrecision | crates/franken-snowflake-catalog/src/diff.rs:300-319 | An instance: precision 38, none, 10 - no step is breaking, the whole is |
| DiffSnapshots.DiffCatalogs | crates/franken-snowflake-catalog/src/diff.rs:205-478 | The nested loops build exactly the specified report, with its counts (`DriftCounts.ColumnTotals`, `DriftCounts.DatasetTotals`, `DriftCounts.RelationTotals`) and flags |
| DriftCounts.ColumnTotals | crates/franken-snowflake-catalog/src/diff.rs:392-412 | The column totals of the summary, counted over the snapshots' rows: added, the rows of the target in common datasets whose normalised name no row of that dataset in the base has; removed, the mirror image; modified, the rows of the base whose first namesake differs in a tracked field |
| DriftCounts.DatasetTotals | crates/franken-snowflake-catalog/src/diff.rs:205-412 | The dataset totals: the ids only the target has, those only the base has, and the common ones with a different tracked manifest field or a new, lost or changed column |
| DriftCounts.MapHoldsLast | crates/franken-snowflake-catalog/src/diff.rs:205-232 | Of two manifests with one id the later is the one compared |
| DriftCounts.RelationTotals | crates/franken-snowflake-catalog/src/diff.rs:428-478 | The relations listed are those of the one snapshot and not the other, where both looked for them, and none elsewhere; the totals are their numbers |
| DriftOrder.ReportOrder | crates/franken-snowflake-catalog/src/diff.rs:205-478 | The report names both snapshots and lists the datasets of each kind by ascending id, the modified ones under the object the target names |
| DriftOrder.ColumnOrder | crates/franken-snowflake-catalog/src/diff.rs:233-261 | Added and removed columns are listed by ascending ordinal |
| DiffSnapshots.CollectCommon | crates/franken-snowflake-catalog/src/diff.rs:229-426 | The loop over common datasets pushes the changed ones and tallies their columns and the breaking flag |
| DiffSnapshots.CompareFields | crates/franken-snowflake-catalog/src/diff.rs:271-366 | The field comparisons and the flag they raise |

## Left out

- `FileStore.FileCache.AppendLine`: does not model the saturation of the 64-bit line counters; counts are unbounded.
- `SqlText.LexRendered`: the lexer and the statement parser are this project's own reading of SQL (section 8.12 of ISO/IEC 9075:1992 for precedence and truth tables), not Snowflake's; casts and the server's comparison of typed values are parameters.
- `PlanQuery.PlanDatasetQuery`: the safety step is a parameter that accepts or refuses a text; plan ids, query tags, warnings, log lines and the wording and suggestions of refusals are not modelled.
- `DiffTheorems.PatchGivesTarget`: the report lists an added dataset without its columns, so those cannot be patched in; added and removed datasets are compared by manifest.
- `Needles.ExplicitNeedlesAreGone`: leaves out needles that hold a bracket or are made of the replacement's own characters only; such a needle may come back with a replacement.
- `Redaction.RedactionIsComplete`: takes white space outside ASCII as a parameter that must not hold the policy's own characters.
- `StoreTheorems.RunsAgree`: is about runs in which every append reaches the disk whole and every file can be opened and written; a torn tail is covered by the crash lemmas, a log that is not text by `Crash.UnreadableStays`, and what an append after a torn tail does by `LogText.AppendAfterTornTail`.
- `SqlImport.ReplayInto`: stands beside the file cache's own method because the target is another class; the marker file that records the import is not modelled.
- `Crash.CrashedTableRewrite`: is per table; retention rewrites three tables one after the other, so a crash between them leaves some before and some after.
- `SqlStore.SqlRunsAgree`: the SQLite driver, migrations, row decoding and the audit-statement lint are not modelled, only what INSERT, SELECT and DELETE mean over rows.
- `Compactions.ReportMeans`: the run theorems compare the outcome of a compaction, not its report; the report is proved for the file cache's method.
- JSON encoding is a codec whose decoder undoes its encoder on one line; content hashes and secret checks are a predicate that accepts or refuses a record; the fields no lookup reads are one opaque text.
- Unicode lower-casing and white space are parameters of identifier normalisation and trimming.
- Raw SQL mode, the request builder of the discovery statements, search ranking and overlay parsing.
- The BLAKE3 digest after the identity bytes.
- The order of the relation differences, the initial-scan report and the one-line summary text.
- Several processes on one data directory, and the mutex wrapper around a backend.
- Signing, token exchange, HTTP, the command line, the MCP server and configuration.
