# dbback: a verified model of the backup controller

dbback is a controller that dumps databases into object storage, on request or on a cron schedule,
and keeps the metadata in PostgreSQL. This project models the parts of it where one function writes
data that another must read back with the same meaning, and proves that they agree over every run.

| part | modules |
|---|---|
| session tokens | `GoText`, `Utf8`, `Base64Url`, `Json`, `Reading`, `Trim`, `Token`, `Payload` |
| where objects lie | `FilePath`, `LocalStorage`, `ObjectName`, `Adapters` |
| backup lifecycle | `DumpPipe`, `Metadata`, `Lifecycle`, `Backup`, `Retention`, `Operations`, `Requests`, `Removals` |
| schedules and cron | `CronTable`, `ScheduleController` |
| accounts | `Users`, `SignIn`, `Accounts` |

A Go string is a byte sequence (`GoText.Text`); numbers in the code are ASCII codes. Files with
mutable state in the source are classes here (`Store`, `Disk`, `Scheduler`, `UserStore`), whose
methods are proved against functions on values; the results about runs are about those functions.
What runs concurrently without a transaction or a lock is a step machine in which the steps of all
parties interleave freely: the dump goroutine and the storage reader (`DumpPipe`), store and storage
calls of backups, deletions and retention (`Lifecycle` as bare steps, `Requests` and `Removals` with
deletions and passes as programs of calls), and the store calls of account requests (`Accounts`).

Parameters stand for what the code calls but does not contain: the MAC (any function at all), gzip
(`DumpPipe.Codec`, any streaming compressor with an inverse), the cron parser, PostgreSQL's reading
of a UUID literal (`Metadata.Canon`), bcrypt's comparison, the path that `url.Parse` finds, the clock,
and which calls fail.

## Findings

The model follows the code. Where a natural expectation is false of it, a lemma gives the input and
another gives the exact condition.

- An update or deletion of a schedule whose id is spelled in another way that PostgreSQL accepts (upper
  case, say) changes the row but not the running job, because the map of cron entries is keyed by the
  canonical spelling: `SpelledOtherwise` and `UpdatedOtherwise`, for every schedule and spelling, with
  `UpdateAgreesExactly` and `DeleteAgreesExactly`.
- Two racing Google sign-ins with one email and different subjects are both answered; the later one
  is answered although the row carries the other subject, because an UPDATE of no rows is no error:
  `LateLinkAnswersOtherSubject`, with `LinkAnswersExactly`.
- A name that starts with the base directory twice is saved in one file and looked for in another:
  `LocationAgrees`. A backup of any type under the name `../backups/backups/x` is one: `DoubledNameIsLost`.
- Two backups of one type, defaulted name and second, such as two unnamed requests at once, write one
  object, and the later one can destroy what the earlier one's row names: `SameSecondLoses`. Rows keep
  their objects over every run exactly if no error-free job shares its key with another:
  `OwnKeysExactly`. The results about restoring below assume such jobs (`Lifecycle.Suited`).
- On Local, a backup of an unsupported type that contains a slash, such as `sqlite/.`, `/sqlite` or
  `backups/sqlite`, writes its object over the sqlite backup with the same name and second before it is
  refused: `SlashTypesOverwrite`. A name with a slash does the same for any type, unsupported or not, as
  `../sqlite/x` under `mysql` shows: `SlashNamesOverwrite`. `OverwrittenExactly` says, for all types and
  names, exactly which calls do, and `LeadsTo` by which ways a type leads there.
- A type without a slash (`.` or `..`) can do so exactly under a base directory that is itself a database
  type, or one followed by the name of a backup file: `GoodBaseExactly`. The programs pass `backups`,
  which is none of these: `ControllerBase`. Local is where the command line tool keeps backups and where
  retention looks for them when S3 is not configured; see "Left out" for the controller's own handlers.
- S3 locations with a backslash in the name do not open: `LocationReaches`.
- A Save that fails strands the dump goroutine for good unless it had taken the whole compressed stream,
  trailer included; a Save that fails before it reads anything always does: `FailedSaveStrandsDump`.
- Deleting a schedule does not save the backups that a pass has listed for it: `ListedOrphanGoes`. An
  orphaned backup that no API request wants can still be removed exactly while a pass at work holds its
  row: `OrphanLostExactly`. Raising a schedule's retention days does not help during a pass either, which
  goes by the days that it read at its start: `ListingIgnoresEdits` says exactly what it takes.
- A claims string that is not UTF-8 does not survive its token: `RoundTripExact`. Claims that differ only in
  such bytes share a token: `GenerateInjective`.
- Raising retention days from zero removes backups that were kept: `LongerKeepsMore`.
- README.md of the repository says that metadata is stored in SQLite; the code uses PostgreSQL, and
  the model follows the code. `CreateUser` never returns `ErrUserExists`, so the conflict answer of
  `Register` cannot occur; both failures are one outcome here.

## Model

| member | source | states |
|---|---|---|
| `Utf8.DecodeEncode` | internal/auth/token.go:32-35 | every Unicode scalar decodes from its UTF-8 bytes, whatever follows |
| `Utf8.EncodeDecode` | internal/auth/token.go:62-65 | whatever decodes without error is the shortest encoding of its scalar |
| `Utf8.EncodeLayout` | internal/auth/token.go:32-35 | lead bytes, continuation bytes and their bits, for each length |
| `Utf8.SanitizeExact` | internal/auth/token.go:32-35 | replacing bad bytes yields UTF-8, and changes nothing exactly on UTF-8 |
| `Base64Url.RoundTrip` | internal/auth/token.go:37-57 | decoding an unpadded base64url encoding gives the bytes back |
| `Base64Url.DecodeExactly` | internal/auth/token.go:57-60 | the texts that decode are exactly the encodings up to line breaks and unused bits of the last letter |
| `Base64Url.AlphabetInOrder` | internal/auth/token.go:37 | the letters stand for 0 to 63 in the order of RFC 4648 |
| `Base64Url.EncodesBits` | internal/auth/token.go:37 | each three bytes become four letters that hold the same 24 bits, and one or two bytes two or three letters filled up with zero bits |
| `Json.StringRoundTrip` | internal/auth/token.go:32-65 | a string written with Go's escapes reads back as its UTF-8 repair, whatever follows |
| `Json.DecimalIsLiteral` | internal/auth/token.go:25-35 | a printed int64 is read as exactly one JSON number |
| `Reading.NumberRead` | internal/auth/token.go:62-65 | every number of RFC 8259, signed or not, is read whole |
| `Reading.StringRead` | internal/auth/token.go:62-65 | every spelling of a string, with short escapes, `\u` escapes in either case and surrogate pairs, reads as what it spells |
| `Reading.DocumentRead` | internal/auth/token.go:62-65 | every document of RFC 8259 in any layout of white space, nested at most 10000 deep and with paired surrogate escapes, reads as the value it spells |
| `Token.StoreAllExactly` | internal/auth/token.go:62-65 | decoded members: any order, last non-null one wins, unknown ones ignored, a wrong type fails |
| `Token.IntegersExactly` | internal/auth/token.go:25 | an integer is read as an expiry if and only if it has 64 bits |
| `Token.NamesExactly` | internal/auth/token.go:21-26 | member names match the claims' by their letters, in either case |
| `Token.PayloadBack` | internal/auth/token.go:32-65 | the JSON payload decodes to the claims, with bad bytes replaced |
| `Payload.MarshalText` | internal/auth/token.go:21-35 | the literal text of the payload around its four values, in their order |
| `Payload.TokenText` | internal/auth/token.go:37-39 | the three parts of a token: `v1`, the encoded payload, and the encoded MAC of that text under the secret |
| `Payload.PayloadHarmless` | internal/auth/token.go:32-35 | no `<`, `>`, `&`, control byte, U+2028 or U+2029 stands in the payload of any claims |
| `Payload.AsciiWritten` | internal/auth/token.go:32-35 | which ASCII bytes are written as they are, as the seven short escapes, and as `\u00` with lower-case hex |
| `Payload.RuneWritten` | internal/auth/token.go:32-35 | every other rune is written as it is, but for the two line separators |
| `Payload.BadWritten` | internal/auth/token.go:32-35 | a byte that is not UTF-8 is written as `\ufffd` |
| `Token.ValidateGenerated` | internal/auth/token.go:28-71 | validating a generated token gives its claims if they expire later, the expired error otherwise |
| `Token.RoundTripExact` | internal/auth/token.go:28-71 | the very claims come back if and only if unexpired and all strings are UTF-8 |
| `Token.AcceptedExactly` | internal/auth/token.go:42-71 | accepted if and only if version, dot-free payload and its MAC, decoding to claims that expire later |
| `Token.ExpiredExactly` | internal/auth/token.go:66-68 | expired is said exactly of such tokens with claims not later than now |
| `Token.InvalidExactly` | internal/auth/token.go:47-65 | all other tokens, and only those, are invalid |
| `Token.PayloadDeterminesToken` | internal/auth/token.go:47-55 | two accepted tokens with the same payload segment are equal |
| `Token.GenerateInjective` | internal/auth/token.go:28-40 | two claims share a token under one secret if and only if they expire together and their strings have the same runes, bad bytes counted alike |
| `Token.Utf8Injective` | internal/auth/token.go:28-40 | different claims made of UTF-8 strings never share a token under one secret |
| `Trim.TrimSpaceTwice` | internal/metadata/users.go:19 | trimming twice is trimming once, over Unicode white space |
| `Trim.SpacesExactly` | internal/metadata/users.go:19 | which runes are white space, one by one |
| `Trim.TrimsAround` | internal/metadata/users.go:19 | trimming removes exactly the white space around a printable ASCII text |
| `FilePath.ParseRender` | internal/storage/local.go:52-54 | a normal form survives printing and parsing |
| `FilePath.CleanIsNormalForm` | internal/storage/local.go:52-54 | Clean is idempotent and keeps the path |
| `FilePath.ParseJoin` | internal/storage/local.go:24 | Join pushes the second path's components on the first |
| `LocalStorage.NormalizeCases` | internal/storage/local.go:52-63 | the three exits of normalizeObjectName, told by the components of base and name |
| `LocalStorage.NormalizeResolves` | internal/storage/local.go:22-63 | for every base and name the file reached is the name itself if it is below the base, else base joined with name |
| `LocalStorage.LocationAgrees` | internal/storage/local.go:22-63 | the location Save returns reaches the file Save wrote if and only if the name does not repeat a relative base twice |
| `LocalStorage.LegacyLocation` | internal/storage/local.go:40-63 | a base-prefixed location and the bare name reach one file when the name neither starts with the base nor leaves it, and for plain relative bases only then |
| `ObjectName.UnformatBack` | internal/backup/backup.go:54 | a parser recovers type, defaulted name and second from the object name if and only if the type has no slash and the time is not before 1970 |
| `ObjectName.FormatMeets` | internal/backup/backup.go:54 | for all types, names and times: which calls write one object name |
| `ObjectName.FormatInjective` | internal/backup/backup.go:54 | from 1970 on, if types or names have no slash, equal object names come only from equal type, defaulted name and second |
| `ObjectName.FileNamesExactly` | internal/backup/backup.go:54 | `IsFileName` holds of exactly the file names that backups write |
| `ObjectName.SchedulesWriteApart` | internal/scheduler/scheduler.go:70 | different schedules, of any types, never write one object name |
| `ObjectName.NegativeSecondsCollide` | internal/backup/backup.go:54 | before 1970 two names share an object |
| `ObjectName.SlashInTypeCollides` | internal/backup/backup.go:54 | a slash in the type makes two names share an object |
| `Adapters.FilesMeet` | internal/storage/local.go:22-63 | for every base and all types and names: two calls write one file if and only if last part, second and directory agree |
| `Adapters.GoodBaseExactly` | internal/storage/local.go:22-63 | exactly which bases keep supported types apart from all types without a slash |
| `Adapters.OverwrittenExactly` | internal/backup/backup.go:54-59 | exactly which calls, of whatever type and name, write a supported type's file |
| `Adapters.SlashFreeStays` | internal/storage/local.go:52-63 | a type without a slash never leads to the directory below the base that is named like a supported type |
| `Adapters.LeadsTo` | internal/storage/local.go:52-63 | the two ways in which a type leads to the directory of a supported one |
| `Adapters.SlashTypesOverwrite` | internal/backup/backup.go:54-73 | three spellings with a slash that overwrite a supported type's backup |
| `Adapters.SlashNamesOverwrite` | internal/backup/backup.go:54 | a name that steps back out of its type writes another type's file |
| `Adapters.KeysApart` | internal/storage/local.go:22-36 | a supported type's file or object is that of no other backup, for types without a slash and, on Local, all types that do not stray into its directory |
| `Adapters.LocationReaches` | internal/storage/s3.go:91-149 | when a stored location deletes and opens what Save wrote: on Local if and only if the name does not double the base, on S3 always to delete and without a backslash to open |
| `Adapters.OpensOnS3` | internal/storage/s3.go:137-149 | the key that a location opens on S3, byte by byte, and the URLs that do otherwise |
| `Adapters.DoubledNameIsLost` | internal/storage/local.go:22-63 | for every plain base and type, a name whose location neither opens nor deletes what was saved |
| `Adapters.ControllerBase` | cmd/controller/controller.go:51 | the base directory that the programs pass, spelled out, is a good one of plain names |
| `Adapters.SupportedExactly` | internal/backup/backup.go:104-128 | the supported types, spelled out |
| `DumpPipe.SavedIsComplete` | internal/backup/backup.go:43-73 | in every interleaving a successful Save has stored the compression of the whole dump, and dumpErr is final |
| `DumpPipe.NoDeadlock` | internal/backup/backup.go:43-59 | until Save returns, goroutine or reader can move |
| `DumpPipe.FailedSaveStrandsDump` | internal/backup/backup.go:43-65 | after a failed Save some continuation ends the goroutine if and only if that Save had taken the whole compressed stream |
| `Metadata.BackupConstraints` | internal/metadata/migrations/001_init.sql:20-29 | inserting a backup keeps keys and references sound |
| `Metadata.DropConstraints` | internal/metadata/migrations/001_init.sql:28 | deleting a schedule keeps every backup and only clears references |
| `Metadata.Store.AddBackup` | internal/metadata/postgres.go:113-130 | inserts unless the key exists or the schedule does not |
| `Metadata.Store.GetBackup` | internal/metadata/postgres.go:143-148 | the row under the id as PostgreSQL reads it |
| `Metadata.Store.DeleteBackup` | internal/metadata/postgres.go:161-164 | removes at most that row |
| `Metadata.Store.ListBackupsBySchedule` | internal/metadata/postgres.go:150-159 | exactly the rows of the schedule, each once, latest finished first |
| `Metadata.Store.ListSchedules` | internal/metadata/postgres.go:185-194 | exactly the stored schedules, each once, latest created first |
| `Metadata.Store.AddSchedule` | internal/metadata/postgres.go:166-183 | inserts unless the key exists |
| `Metadata.Store.UpdateScheduleLastRun` | internal/metadata/postgres.go:203-206 | sets the last run of one row and nothing else |
| `Metadata.Store.UpdateSchedule` | internal/metadata/postgres.go:208-214 | changes the four editable columns of one row |
| `Metadata.Store.DeleteSchedule` | internal/metadata/postgres.go:216-219 | removes the row and nulls references to it |
| `Lifecycle.AdapterKeepsApart` | internal/backup/backup.go:54-59 | jobs of distinct type, defaulted name and second have keys of their own on both adapters, for names and types as in `GoodName` |
| `Lifecycle.AdapterSuits` | internal/storage/s3.go:91-149 | their locations delete and open those keys too, without backslashes in names on S3 |
| `Lifecycle.OwnKeysExactly` | internal/backup/backup.go:54-59 | rows keep their objects over every run if and only if no error-free job shares its key with another |
| `Lifecycle.SameSecondLoses` | internal/backup/backup.go:54 | two backups of one type, defaulted name and second break that |
| `Lifecycle.StepKept` | internal/backup/backup.go:54-93 | for jobs with keys of their own, any atomic call of any request keeps every row backed by its own job's complete object |
| `Lifecycle.RowRestores` | internal/backup/backup.go:54-93 | for jobs with keys of their own, after any interleaving a row comes from an error-free job and unpacks to its whole dump if and only if its object was not deleted |
| `Lifecycle.RowsApart` | internal/retention/retention.go:31-37 | for jobs with keys of their own, no two rows share a location, and deleting one row's object leaves the others' |
| `Lifecycle.ReferencesHold` | internal/metadata/migrations/001_init.sql:28 | over every run, whatever finishes first and whatever keys are shared, a schedule id on a backup names a stored schedule |
| `Lifecycle.DeleteScheduleKeepsBackups` | internal/metadata/postgres.go:216-219 | deleting a schedule loses no backup and no object |
| `Backup.Disk.Save` | internal/storage/local.go:22-36 | what a complete Save leaves under the key, and a failed one: any prefix of what it read, or nothing new |
| `Backup.Disk.Open` | internal/storage/local.go:40-43 | the content under the key of a location, unless it is missing or the storage fails |
| `Backup.Disk.Delete` | internal/storage/local.go:46-50 | removes that key only; a missing file is an error on Local |
| `Backup.RunBackup` | internal/backup/backup.go:34-94 | for any interleaving: the object, the row and the answer, for each outcome of Save, dump and insert; also field by field in the call's own arguments |
| `Backup.ObjectNameText` | internal/backup/backup.go:54 | the object name is the type, a slash, the name or `backup`, a dash, the second and `.gz` |
| `Backup.RunScheduled` | internal/scheduler/scheduler.go:64-80 | the job of a schedule: a backup of its type and source under `scheduled-` and its id that refers to it, and its last run exactly if that backup is stored |
| `Backup.RowIsListed` | internal/metadata/postgres.go:150-159 | a stored row that refers to a schedule is in every listing of that schedule |
| `Backup.StoredMeansComplete` | internal/backup/backup.go:59-93 | an id is answered if and only if Save, dump and insert succeeded, then the object holds the whole dump |
| `Backup.BackupIsSteps` | internal/backup/backup.go:34-94 | a call of RunBackup is a run of lifecycle steps with the same effect |
| `Backup.Delete` | internal/api/controllers/backup_controller.go:94-110 | object first, then row, with each failure exit |
| `Backup.DeleteOverAdapters` | internal/api/controllers/backup_controller.go:94-110 | every exit over both adapters: where the object is missing, Local fails and keeps the row, and S3 answers Done and drops it |
| `Backup.Restore` | internal/api/controllers/backup_controller.go:131-163 | the unpacked content of the object the row names, unless the lookup, the storage or the target file fails |
| `Backup.RestoreOverAdapters` | internal/api/controllers/backup_controller.go:131-163 | over both adapters, a content is restored if and only if row and object are there and the object unpacks to it |
| `Retention.PurgeSchedule` | internal/retention/retention.go:24-39 | the inner loop handles exactly the due backups of one schedule |
| `Retention.ApplyRetention` | internal/retention/retention.go:12-41 | the nested loops remove exactly the due backups, as far as calls succeed |
| `Retention.PassIsExact` | internal/retention/retention.go:19-40 | kept are exactly rows with no schedule, no positive retention, or not finished before the cutoff |
| `Retention.PassUnderFaults` | internal/retention/retention.go:12-41 | which rows and objects a pass leaves for any failing calls, row by row and key by key |
| `Retention.PassesCompose` | internal/retention/retention.go:12-41 | a pass and a later pass leave rows and objects as the later one alone |
| `Retention.LongerKeepsMore` | internal/retention/retention.go:12-41 | exactly which changes of one schedule's retention days make a pass keep at least the same rows and objects, whatever backups there are |
| `Retention.FaultsSpareUnexpired` | internal/retention/retention.go:24-37 | for jobs with keys of their own, whatever calls fail, unexpired rows stay with their objects |
| `Retention.OrphansStay` | internal/retention/retention.go:19-24 | over every run after its schedule was deleted, a backup whose row is not itself deleted stays as it is and is never due |
| `Operations.PurgeRuns` | internal/retention/retention.go:31-37 | removing backups one by one is a run of lifecycle steps |
| `Operations.RetainModels` | internal/retention/retention.go:12-41 | for jobs with keys of their own, a whole pass keeps every remaining row's object |
| `Operations.RemoveModels` | internal/api/controllers/backup_controller.go:94-110 | for jobs with keys of their own, an API deletion keeps every remaining row's object |
| `Operations.RowsLeft` | internal/backup/backup.go:34-94 | which rows each whole request leaves: backups, deletions and passes, one by one |
| `Operations.EveryRowRestores` | internal/backup/backup.go:34-94 | after any sequence of requests by jobs with keys of their own, restoring any row yields the dump it was made from, with no location shared |
| `Requests.MoveKept` | internal/api/controllers/backup_controller.go:94-110 | for jobs with keys of their own, one call of any request, answered or not, keeps every row backed by its object, between a request's two calls, or stuck after a failed one |
| `Requests.RowsRestore` | internal/retention/retention.go:12-41 | for jobs with keys of their own, in every interleaving of backups, deletions, passes and edits under any faults, a row restores if and only if no request has deleted its object, and where one has, a request is about to delete the row or could not |
| `Removals.OrphansStay` | internal/retention/retention.go:19-37 | in every interleaving, a backup without a schedule that no request has read is removed by no pass |
| `Removals.OrphanLostExactly` | internal/retention/retention.go:24-37 | an orphaned backup that no API request wants can still be removed, without a DELETE for it, if and only if a pass at work holds its row |
| `Removals.ListedOrphanGoes` | internal/retention/retention.go:24-37 | after its schedule is deleted, a backup that a pass holds, anywhere in its list, can still be removed |
| `Removals.LostWasListed` | internal/retention/retention.go:12-37 | over every run, a row lost without a DELETE for it was listed by a pass as its schedule's own and as expired by the clock then and the retention days stored when the pass called ListSchedules |
| `Removals.PassSweepsAll` | internal/retention/retention.go:24-40 | in every interleaving, a pass that ends with its calls answered has removed every row that was expired when it listed the schedule, unless the id is inserted again |
| `Removals.ListingIgnoresEdits` | internal/retention/retention.go:19-32 | a listing takes exactly the schedule's rows that are old by the days read at the start of the pass, whatever they were edited to since |
| `Requests.DeleteAlone` | internal/api/controllers/backup_controller.go:94-110 | the deletion's calls in a row are the handler, for each failing call |
| `Requests.PassAlone` | internal/retention/retention.go:12-41 | the pass's calls in a row leave what the nested loops leave, whatever listings and deletions fail |
| `CronTable.Scheduler.AddSchedule` | internal/scheduler/scheduler.go:57-86 | skips a known id, reports an expression that does not parse, else adds entry and mapping |
| `CronTable.Scheduler.RemoveSchedule` | internal/scheduler/scheduler.go:88-96 | removes entry and mapping of a known id |
| `CronTable.Scheduler.StartRetentionPolicy` | internal/scheduler/scheduler.go:98-121 | adds an entry only if its expression parses |
| `ScheduleController.RetentionScheduled` | internal/scheduler/scheduler.go:98-121 | the retention entry exists exactly if its expression parses |
| `CronTable.Scheduler.LoadSchedules` | cmd/controller/controller.go:70-76 | the startup loop is the fold of AddSchedule |
| `CronTable.IndexIsBijection` | internal/scheduler/scheduler.go:57-96 | after any calls the id map and the schedule entries correspond one to one, each job under its own id |
| `ScheduleController.HandleCreate` | internal/api/controllers/schedule_controller.go:52-92 | new store and cron state for every exit |
| `ScheduleController.HandleUpdate` | internal/api/controllers/schedule_controller.go:95-141 | new store and cron state for every exit |
| `ScheduleController.HandleDelete` | internal/api/controllers/schedule_controller.go:144-154 | new store and cron state for every exit |
| `ScheduleController.CreateLeaves` | internal/api/controllers/schedule_controller.go:52-92 | field by field: which requests are answered in which way, and the row and the running job that a creation leaves |
| `ScheduleController.UpdateLeaves` | internal/api/controllers/schedule_controller.go:95-141 | field by field: each given field is the request's, each omitted one the old row's, and id, creation time and last run are kept |
| `ScheduleController.DeleteLeaves` | internal/api/controllers/schedule_controller.go:144-154 | the rows and jobs that a deletion leaves, for every spelling of the id |
| `ScheduleController.JobsMatchStore` | internal/api/controllers/schedule_controller.go:52-154 | under any store failures every running job is a stored schedule's, field for field |
| `ScheduleController.CompletenessLostExactly` | internal/api/controllers/schedule_controller.go:71-136 | exactly which failures leave a parseable schedule without its job |
| `ScheduleController.RestartIsInvisible` | cmd/controller/controller.go:70-76 | without failures the jobs are exactly the stored parseable schedules, and a restart runs the same |
| `ScheduleController.RestartHeals` | cmd/controller/controller.go:70-76 | whatever failed and however ids were spelled, a restart runs exactly the stored parseable schedules |
| `ScheduleController.UpdateAgreesExactly` | internal/api/controllers/schedule_controller.go:96-137 | an update keeps agreement if and only if the id is canonical, no job runs, or nothing changes |
| `ScheduleController.DeleteAgreesExactly` | internal/api/controllers/schedule_controller.go:144-154 | a deletion keeps agreement if and only if the id is canonical or no job runs |
| `ScheduleController.SpelledOtherwise` | internal/api/controllers/schedule_controller.go:144-154 | for every schedule and other spelling of its id, a run after which the deleted schedule still has its job |
| `ScheduleController.UpdatedOtherwise` | internal/api/controllers/schedule_controller.go:96-137 | likewise a run after which the row is edited and the job is not |
| `Users.NormalizeTwice` | internal/metadata/users.go:19-56 | normalising an email is idempotent, so stored and looked-up emails meet |
| `Users.LookupsExact` | internal/metadata/users.go:53-77 | lookups return a row if and only if its email or non-blank Google id is the one asked for |
| `Users.InsertExactly` | internal/metadata/users.go:18-51 | a user is inserted if and only if its values can be stored and its id, email and Google id are new |
| `Users.LinkExactly` | internal/metadata/users.go:79-85 | an unlinked row is linked if and only if the id can be stored and no other row has it; a linked row is left alone |
| `Users.GoogleRow` | internal/metadata/users.go:30-51 | the fields of a new Google user: the name is the trimmed one, or the email up to its first `@` |
| `Users.InsertKeeps` | internal/metadata/users.go:18-51 | inserting keeps uniqueness and disturbs nobody |
| `Users.LinkKeeps` | internal/metadata/users.go:79-85 | linking keeps uniqueness and never changes a Google id that is set |
| `Users.UserStore.CreateUser` | internal/metadata/users.go:18-28 | inserts a local user under the normalised email, unless a constraint or the database refuses |
| `Users.UserStore.CreateGoogleUser` | internal/metadata/users.go:30-51 | inserts a Google user, named after the email if the name is blank, unless a constraint or the database refuses |
| `Users.UserStore.GetUserByEmail` | internal/metadata/users.go:53-59 | the row with the normalised email, no rows, or an error |
| `Users.UserStore.GetUserByGoogleID` | internal/metadata/users.go:68-77 | the row with the trimmed id, no rows, or an error; nobody, without a query, for a blank id |
| `Users.UserStore.LinkGoogleID` | internal/metadata/users.go:79-85 | the guarded UPDATE under the unique index, unless the database refuses |
| `SignIn.NextKeeps` | internal/api/controllers/auth_controller.go:146-185 | one store call of a sign-in keeps the table sound and the request's knowledge true |
| `SignIn.GoogleLogin` | internal/api/controllers/auth_controller.go:146-185 | run alone, the handler's table and answer for each outcome of its store calls |
| `SignIn.AloneIsThreeCalls` | internal/api/controllers/auth_controller.go:146-185 | that outcome is the composition of the calls that interleave elsewhere |
| `SignIn.KnownSubject` | internal/api/controllers/auth_controller.go:146-150 | a stored subject answers its user and changes nothing |
| `SignIn.OpenEmail` | internal/api/controllers/auth_controller.go:151-169 | a new subject with the email of an unlinked row links it and answers it, if the database can |
| `SignIn.LinkedEmail` | internal/api/controllers/auth_controller.go:151-164 | with the email of a linked row it is answered exactly if the row has this very subject |
| `SignIn.NewUser` | internal/api/controllers/auth_controller.go:171-185 | a new subject with a new email is stored and answered exactly if the database can take it |
| `SignIn.SignInSticks` | internal/api/controllers/auth_controller.go:146-185 | a successful sign-in run alone leaves its trimmed subject on the answered user |
| `SignIn.LaterSignIn` | internal/api/controllers/auth_controller.go:146-150 | from then on that subject returns that user, whatever email it brings |
| `SignIn.LinkAnswersExactly` | internal/api/controllers/auth_controller.go:158-169 | the answered subject is the stored one if and only if the row was unlinked or linked to it |
| `SignIn.LateLinkAnswersOtherSubject` | internal/api/controllers/auth_controller.go:156-169 | the race in which they differ |
| `Accounts.AccountsSafe` | internal/api/controllers/auth_controller.go:87-204 | over any interleaving emails and Google ids stay unique, users stay, set Google ids stay |
| `Accounts.AnswersMatch` | internal/api/controllers/auth_controller.go:56-204 | every answered user is stored and has the subject, email or password that the request gave |
| `Accounts.LoginExactly` | internal/api/controllers/auth_controller.go:56-85 | a login is answered with a row if and only if it has the normalised email and a non-blank hash that matches |
| `Accounts.RegisterExactly` | internal/api/controllers/auth_controller.go:87-118 | a registration is answered if and only if its values can be stored, its id is new and no row has the normalised email |
| `Accounts.GoogleExactly` | internal/api/controllers/auth_controller.go:146-185 | a Google sign-in run alone goes on to answer exactly the user that was found, linked or created |
| `Accounts.RespondExactly` | internal/api/controllers/auth_controller.go:221-241 | a user gets a token if and only if the secret is not blank |
| `Accounts.LookupExactly` | internal/api/controllers/auth_controller.go:198-203 | a refresh is answered with the stored user of its subject, and refused where there is none |
| `Accounts.RefreshExactly` | internal/api/controllers/auth_controller.go:192-198 | which Authorization headers lead to the lookup of which subject |
| `Accounts.TokensStayTrue` | internal/api/controllers/auth_controller.go:221-241 | an issued token validates to the stored user's present data for exactly 86400 whole seconds |
| `Accounts.BearerCarries` | internal/api/controllers/auth_controller.go:252-259 | the Authorization header carries a token unchanged |
| `Accounts.RefreshReadsUser` | internal/api/controllers/auth_controller.go:192-198 | an unexpired issued token looks up the user it was issued for |
| `Accounts.RefreshFindsUser` | internal/api/controllers/auth_controller.go:198-203 | at any later point that lookup finds the user, so subject, email and name are kept |

## Left out

- Strength of the MAC, bcrypt and Google's token check: no claim about forgery is made.
- gzip itself, the dump commands and the SQL engine: any compressor with an inverse, any byte stream, tables with their constraints.
- `ListBackups` with its `LIMIT` and the download handler, which only read.
- Times: the cutoff is now minus whole days of 86400 seconds in UTC; local time with daylight saving is not modelled.
- Cron firing times: a job or a pass may run at any point; the six-field retention expression may or may not parse.
- A controller without S3: scheduled jobs and API handlers get a nil S3 adapter, the handlers inside an interface that is not nil (cmd/controller/controller.go:80, internal/api/handlers/handlers.go:107), so only retention and the command line tool use Local; the model has one configured adapter for everything.
- Concurrent schedule requests: the scheduler has no lock, and the results about cron hold for requests one at a time.
- The command line tool, which edits schedules behind the running controller.
- Non-ASCII letters in emails: lower-casing is modelled for ASCII, trimming for all Unicode white space.
- The decoded text of `Rel` when it climbs: only its leading `..` is used, so `.` as a target counts as no component.
- Backup sizes, which the code stores as zero, creation times of users, and the content of a restore target after a failed restore.
- The checks of `Login`, `Register` and the manual-backup handler that answer before the store is touched: missing fields, short passwords.
- internal/crypto/encrypt.go, internal/metadata/metadata.go, configuration, CORS, region parsing, HTTP decoding, logging and Slack: easy or unused by the controller.
- LegacyLocation: the converse is stated for relative bases of plain names such as `backups`; other bases are covered by NormalizeResolves and LocationAgrees.
- KeysApart: asks for names without a slash on Local and types without one on S3; OverwrittenExactly, FilesMeet and FormatMeets say which calls coincide without that, and OwnKeysExactly what follows.
- RowsRestore: a restore is one step here; a deletion between its lookup and its reading is not modelled.
- LocationReaches: on S3 it is about supported types, none of which starts with `http`; a location that does goes through url.Parse, a parameter here.
