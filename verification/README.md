# Verified model of the evidence pipeline

A Dafny model of the parts of the pipeline in which state survives crashes, retries and
concurrent callers, and of its hand-written parsers. `dafny verify dfyconfig.toml` checks all
of it.

| modules | what they model |
|---|---|
| `SnapshotTypes`, `Listing`, `Snapshot`, `SnapshotLog`, `S3Adapter`, `Fleet`, `Exactness`, `Published`, `Creation`, `Transcript`, `Recovery`, `TightBudget`, `SnapshotClient` | publication of closed snapshots on a create-once store, listed page by page: the payload first, everything read back, the manifest last |
| `Journal`, `JournalRuns`, `JournalMeaning`, `ResultPages`, `ResultCells`, `ExecutionIdentity`, `AthenaAnswers`, `AthenaRun`, `ProvenRun` | the write-ahead journal around a service that keeps one execution for each token, and when its answers are taken |
| `Tiling`, `ZipFormat`, `ZipNames`, `ZipReader`, `RestoreReader`, `ZipWriter`, `ZipMeaning`, `RestoreMeaning` | two bounded ZIP readers and one writer, byte by byte (APPNOTE sections 4.3.7, 4.3.9, 4.3.12 and 4.3.16) |
| `SqlLexer`, `SqlTokens` | the SQL lexer that only drops white space, and what its tokens are |
| `ViewGrammar`, `ViewParser`, `ViewLexer`, `ViewReader`, `ViewPrinter`, `ViewMeaning` | the grammar, lexer and recursive-descent parser of restricted view definitions, and the printer they undo |
| `EvidenceStore` | create-once objects with read-back and reconciliation, for any number of callers |
| `Intake` | the deduplicating intake ledger behind a lock file |
| `Alerts` | delivery, acknowledgement and resolution of alerts |
| `PolicyForm` | the normal form of policy JSON |
| `Dockerfile` | where every stage of a Dockerfile comes from |
| `Cron` | cron fields and occurrences, and the coverage of a schedule by its runs |
| `Common` | options, bytes, the order of strings |

How the model is built:

* Protocols are state machines over the calls of their clients. What a client does next is a
  function of the answers it has had (`Snapshot`), or an event it is permitted to cause
  (`Journal`); a crash is a client that is never heard of again, or a call that does not return.
  The imperative methods (`SnapshotClient.Client`, `AthenaRun.Process`) are proved to do exactly
  that, call by call, so the theorems over all runs are about them.
* `sha256(canonical(..))` is a free constructor, hence injective: a snapshot identifier and a
  client token are what they were computed from.
* What the readers, lexers and programs compute is said again without them, on bytes, characters,
  fields and log entries, and proved to be the same (`Published`, `Creation`, `Transcript`,
  `JournalMeaning`, `ResultCells`, `ProvenRun`, `ZipNames`, `ZipMeaning`, `RestoreMeaning`,
  `SqlTokens`, `ViewMeaning`).
* What the code takes from a library it does not contain is a parameter, and every theorem holds
  for all values of it: CRC-32, inflate and the search for secrets (`ZipFormat.Tools`), the reader
  of the Parquet files and the length of a manifest (`SnapshotTypes.Codec`), the decoding of a
  result cell (`ResultPages.Decoder`), the order of JSON texts (`PolicyForm.Order`), the regular
  expressions for a Dockerfile line (`Dockerfile.Reader`) and `int` (`Cron.Numeral`).
* Surroundings that answer as they like - the service, the clocks, the destination of alerts, the
  next fault of a connection - are sequences of answers the methods are proved against for all
  contents.

Where the code keeps less than it might be read to promise, the model follows the code and says
exactly when the promise holds:

* A resumed run polls a VERIFIED statement again and writes it as SUCCEEDED; when later entries
  exist the next run refuses that journal. A run resumed while the pages of its only statement
  were being read also writes a journal that is refused when the poll, or the deadline, takes the
  statement out of SUCCEEDED (`JournalRuns.AcceptedExactly`, `RecordedPollRefused`,
  `ResumedJournalRefused`, `PagesUnderWayRefused`; `AthenaRun.Process.ExecutePlan` has the exact
  condition for a whole run).
* The tokens of an accepted SQL text joined by spaces can exceed the size limit of the lexer, and
  a text of white space alone joins to nothing; `SqlLexer.JoinedTokensAccepted` has the condition.
* Whether a publisher recovers depends on the limits of its plan and its adapter, the budget of
  listing pages among them (`Recovery.PublisherRecovers`). That budget can let the manifest be
  written and never be read back under the same limits: the listing in front of the manifest has
  one key less than the one behind it (`Recovery.WrittenButUnreadable`; five files with one page
  of five keys in `TightBudget.FiveFilesUnreadable`).
* A listing is read page by page while others may write, so that nothing but the plan and its
  manifest is under the prefix is promised of the moment the last listing began, and of pages that
  skip no stored key (`Exactness.AcceptedMeansExact`, `SuccessMeansExact`); what is there is
  complete in any case.
* Whether a written archive is readable depends on the names not colliding without regard to case
  (`ZipWriter.RoundTrip`).
* A creation whose response was lost is reported as already present, not as created, although
  the call made it; `EvidenceStore.OwnWriteNeverConflicts` says what is kept.

## Model

| member | source | states |
|---|---|---|
| `SnapshotTypes.SnapshotIdDeterminesContent` | scripts/pipeline/analytics/ingestion_types.py:120-147 | two plans with the same snapshot identifier have the same destination, batch and objects, byte for byte |
| `Published.PlanExactly` | scripts/pipeline/analytics/ingestion_types.py:114-137 | a plan is accepted exactly when its batch is a digest, its files are of the seven kinds with the content type of their kind and the metadata of the batch and their own digest, in strict order of their paths, the five fixed ones among them, within the limits for one file, for the number and for the sum |
| `Fleet.ManifestsAlwaysBacked` | scripts/pipeline/analytics/snapshot.py:298-319 | after any interleaving of any number of publishers and readers, with lost, dropped, refused and denied requests, invented listings, crashes and foreign writers of any key but the manifest keys, every manifest present is backed: each object it lists is stored under its key with the listed bytes, metadata and version |
| `Fleet.ContentNeverReplaced` | scripts/pipeline/analytics/s3_ingestion.py:128-164 | in every run and every continuation of it no key already written changes content, metadata or version |
| `Fleet.PublishWrites` | scripts/pipeline/analytics/snapshot.py:304-319 | a publisher writes only objects of its plan and, only when all of them are stored, the one manifest that the plan and the stored versions determine |
| `Fleet.ReadSnapshotWritesNothing` | scripts/pipeline/analytics/snapshot.py:239-295 | whatever it is answered, reading a snapshot back never writes |
| `Fleet.CreateLearns` | scripts/pipeline/analytics/s3_ingestion.py:128-164 | CREATED and ALREADY_PRESENT_IDENTICAL both mean that the key now holds exactly the requested content, under the version returned, after retries and reconciled lost responses |
| `Creation.CreatesExactly` | scripts/pipeline/analytics/s3_ingestion.py:128-164 | for all answers: `create` ends well exactly after fewer conflicts than attempts, one put that settles it and one read that finds the requested content, and reports a creation exactly when that put was acknowledged |
| `Creation.UnclearNeverCreates` | scripts/pipeline/analytics/s3_ingestion.py:150-155 | after a put without a clear answer the outcome is read, never written again, and is never a creation: already present, a conflict, or unknown |
| `Creation.ExhaustedExactly` | scripts/pipeline/analytics/s3_ingestion.py:133-145 | the retries are exhausted exactly by as many conflicts as there are attempts |
| `Creation.StatusExactly` | scripts/pipeline/analytics/snapshot.py:298-319 | a publisher ends with SNAPSHOT_CREATED exactly when its own put of the manifest was acknowledged |
| `Creation.OneReportPerKey` | scripts/pipeline/analytics/s3_ingestion.py:128-164 | over every run at most one call for a key reports a creation |
| `Creation.OnePublisherCreates` | scripts/pipeline/analytics/snapshot.py:298-319 | over every run at most one publisher of a snapshot ends with SNAPSHOT_CREATED |
| `Fleet.AtMostOneCreatedPerKey` | scripts/pipeline/analytics/s3_ingestion.py:128-164 | over every run at most one conditional put of a key is answered as a new creation |
| `Fleet.StepKeeps` | scripts/pipeline/analytics/snapshot.py:298-319 | one event of any client, or of a foreign writer of another key than a manifest, keeps the whole invariant and only adds objects |
| `Fleet.ReadSnapshotLearns` | scripts/pipeline/analytics/snapshot.py:239-295 | an accepted read-back rebuilds a valid plan with that very identifier, and the snapshot is complete in the store; what else is under the prefix is the subject of `Exactness` |
| `Published.CompleteExactly` | scripts/pipeline/analytics/snapshot.py:185-196 | a snapshot is complete exactly when its manifest is canonical JSON with the snapshot, batch and destination of the plan and the observations its reader extracts, and record i has path, size, digest, type, metadata and key of object i, and the version under which that very content is stored |
| `Published.SuccessIsPublished` | scripts/pipeline/analytics/snapshot.py:298-319 | after any run with any faults, a publisher that has succeeded has left exactly such a snapshot, under the identifier made of batch, destination and the listed fields of every object |
| `Published.AcceptedIsPublished` | scripts/pipeline/analytics/snapshot.py:239-295 | what a reader accepts in any run is such a snapshot, and the manifest and version it returns are the stored ones |
| `Published.AcceptedFits` | scripts/pipeline/analytics/snapshot.py:239-295 | the limits of a reader that accepts hold each file, the manifest, their sum, their number and the expansion |
| `Transcript.ManifestAsked` | scripts/pipeline/analytics/snapshot.py:298-317 | whatever the service answers, a publisher asks for the manifest to be written only behind this exchange, call by call: the manifest absent, every object created or found with its content, every object read back by version and as the latest, and a listing of exactly these files with their sizes; what it asks to be written describes exactly what it has read |
| `Transcript.PublisherMeans` | scripts/pipeline/analytics/snapshot.py:298-319 | every success of a publisher: it found the manifest, or that exchange and the put of that manifest came first, reported as created exactly when acknowledged; then everything was read back and is the plan |
| `Transcript.ReaderMeans` | scripts/pipeline/analytics/snapshot.py:239-295 | every reader that accepts has read the manifest, each file it lists under its version, all of them again by version and latest, the manifest again both ways, and a listing that names exactly these with their sizes |
| `Exactness.SuccessMeansExact` | scripts/pipeline/analytics/snapshot.py:298-319 | in any run with any faults and foreign writers, when a publisher has reported success there is a moment of the run, the beginning of its last listing, at which every object was there as planned, under the one manifest of its plan; and unless a page of that listing skipped a stored key, exactly those keys with their sizes were under the prefix then |
| `Exactness.AcceptedMeansExact` | scripts/pipeline/analytics/snapshot.py:209-220 | the same of every reader that has accepted: the plan rebuilt has the identifier asked for, was complete, and was all there was under the prefix when the last listing began |
| `Exactness.AnsweredIsHonest` | scripts/pipeline/analytics/s3_ingestion.py:166-200 | the pages of a service that fills them from the store, in the order of the keys, skip no stored key |
| `Exactness.AcceptedHoldsAll` | scripts/pipeline/analytics/s3_ingestion.py:166-200 | an accepted listing whose pages skip nothing of a store holds every key of that store under the prefix, with its size |
| `Recovery.PublishersLeaveTidy` | scripts/pipeline/analytics/snapshot.py:298-319 | whatever publishers and readers do and suffer, under the prefix of a plan there are only planned objects and, behind all of them, the one manifest |
| `Recovery.SameManifestBytes` | scripts/pipeline/analytics/snapshot.py:185-196 | two publishers about to write the manifest of one snapshot, anywhere in a run, are about to write the same bytes |
| `Recovery.PublisherRecovers` | scripts/pipeline/analytics/snapshot.py:298-319 | from every tidy store a publisher whose calls are all answered succeeds exactly when the configured limits, the budget of listing pages included, hold the plan, its manifest and the listing of both, and otherwise stops with an error; the manifest is there afterwards exactly when it was or the limits let it be written; when it was there nothing is written |
| `Recovery.RetryAfterAnyRun` | scripts/pipeline/analytics/snapshot.py:298-319 | after any run with crashes, lost responses and races of other publishers, an undisturbed retry succeeds and leaves the snapshot complete exactly when its limits, listing budget included, suffice, and stops otherwise |
| `Recovery.WrittenButUnreadable` | scripts/pipeline/analytics/snapshot.py:310-319 | where the promise fails: whenever the limits let the manifest be written but not read back, the run ends in an error with the manifest written, and so does every undisturbed retry |
| `TightBudget.FiveFilesUnreadable` | scripts/pipeline/analytics/s3_ingestion.py:166-200 | an input of that kind: the five files every plan has, with one listing page of five keys |
| `Recovery.ListingRuns` | scripts/pipeline/analytics/s3_ingestion.py:166-200 | of a store that stands still, listed by a service that fills its pages, the listing is the whole map of keys to sizes exactly when the page budget holds it, and the list limit otherwise |
| `Recovery.RetryRuns` | scripts/pipeline/analytics/snapshot.py:304-309 | with the manifest present the retry reads and compares, and ends with ALREADY_PRESENT_IDENTICAL exactly when the adapter's limits hold the manifest and the listing |
| `Recovery.NoWritesAfterMarker` | scripts/pipeline/analytics/snapshot.py:304-309 | once its first read has found the manifest a publisher never puts anything, whatever it is answered afterwards |
| `Recovery.ReadSnapshotRuns` | scripts/pipeline/analytics/snapshot.py:239-295 | a fault-free reader of a finished snapshot rebuilds exactly the plan's objects when its limits hold the manifest and the listing, and otherwise stops |
| `Recovery.ReadableForever` | scripts/pipeline/analytics/snapshot.py:239-295 | after one publisher has succeeded or one reader has accepted, in every later state of publishers and readers a fault-free reader rebuilds exactly its objects when its limits hold the manifest and the listing, and otherwise stops |
| `Recovery.TidyListsExactly` | scripts/pipeline/analytics/snapshot.py:209-220 | in a finished snapshot the listing of the prefix is exactly the plan's files and the manifest, with their sizes |
| `Recovery.MarkerRebuilds` | scripts/pipeline/analytics/snapshot.py:185-206 | the versions listed in a finished manifest rebuild that same manifest |
| `S3Adapter.ReadStream` | scripts/pipeline/analytics/s3_ingestion.py:92-104 | the chunk loop returns the whole stream exactly when its length is the declared size, however the connection splits it |
| `S3Adapter.ListedExactly` | scripts/pipeline/analytics/s3_ingestion.py:166-200 | a listing is some map exactly when the pages asked for in turn are well formed, end within the page budget at the first page that says so, and are together the valid duplicate-free collection of that map |
| `Listing.CollectsExactly` | scripts/pipeline/analytics/s3_ingestion.py:187-195 | the entries of a listing are accepted as a given map exactly when they are distinct, in scope, within the limits and together that map |
| `S3Adapter.PaginationIrrelevant` | scripts/pipeline/analytics/s3_ingestion.py:166-200 | any two paginations, in any order and with any tokens, that end within the budget and together name every file of a directory once, give the same listing: that directory |
| `SnapshotClient.Client.Creates` | scripts/pipeline/analytics/s3_ingestion.py:128-164 | the retry loop of `create` makes exactly the calls, and has exactly the outcome, that the runs of `Fleet` and `Recovery` step through |
| `SnapshotClient.Client.ListsSnapshot` | scripts/pipeline/analytics/s3_ingestion.py:166-200 | the page loop, with its seen tokens and its page budget, makes exactly the calls and has exactly the outcome of the listing the theorems are about |
| `SnapshotClient.Client.ChecksInventory` | scripts/pipeline/analytics/snapshot.py:209-220 | the inventory check as run, over the page loop, is the one the theorems are about |
| `SnapshotClient.Client.ReadsSnapshot` | scripts/pipeline/analytics/snapshot.py:239-295 | `read_snapshot` as run, with `files` and `total` growing, is the one the theorems are about |
| `SnapshotClient.Client.Publishes` | scripts/pipeline/analytics/snapshot.py:298-319 | `publish_snapshot` as run, filling `versions` object by object, is the one the theorems are about |
| `JournalRuns.ServiceNeverAheadOfJournal` | scripts/pipeline/analytics/athena_run.py:569-591 | over every history of any number of processes each execution at the service is reserved, under its token, in the journal on disk, and each execution id on disk is the service's for that token |
| `JournalRuns.OneExecutionPerStatement` | scripts/pipeline/analytics/athena_run.py:202-211 | each statement has at most one execution and there are never more than eighteen, nor more than the journal has reserved |
| `JournalRuns.StartsInOrder` | scripts/pipeline/analytics/athena_run.py:569-591 | a statement is started only while the journal on disk has every earlier statement VERIFIED and no later one, and with the token of its own request |
| `JournalRuns.ClosedForever` | scripts/pipeline/analytics/athena_run.py:578-579 | a FAILED, CANCELLED or TIMED_OUT entry, once on disk, is in every later journal |
| `JournalRuns.NoStartAfterFailure` | scripts/pipeline/analytics/athena_run.py:578-591 | after such an entry nothing is ever started again, in this run or a later one |
| `JournalRuns.IdentityKept` | scripts/pipeline/analytics/athena_run.py:573-591 | the request, submission time and execution id of an entry never change once written |
| `JournalRuns.ExecutionsNeverReplaced` | scripts/pipeline/analytics/athena_run.py:585-591 | the service's execution for a token is never replaced by another |
| `JournalRuns.DeadlineNeverExtended` | scripts/pipeline/analytics/athena_run.py:620-634 | every wait, in whichever process, ends no later than the timeout after the first recorded submission, on the wall clock and on the monotonic clock; it is two seconds, or what the deadline leaves on one of the two |
| `JournalRuns.StepKeepsSane` | scripts/pipeline/analytics/athena_run.py:569-634 | one permitted event of any process keeps the write-ahead invariant |
| `JournalMeaning.AcceptsExactly` | scripts/pipeline/analytics/athena_run.py:442-501 | a journal is accepted exactly when the plan is five DDL, eleven SELECT and two DESCRIBE statements in their order, and its entries are the first ones, each with the request and token of its statement, an execution of its own unless it is only prepared, pages only under way of a succeeded statement, all but the last one verified with the bytes scanned by the succeeded execution |
| `JournalMeaning.DiskAlwaysSound` | scripts/pipeline/analytics/athena_run.py:569-634 | in every history the journal on disk, accepted or not, is of the first statements, each entry sound and with an execution of its own |
| `JournalRuns.AcceptedExactly` | scripts/pipeline/analytics/athena_run.py:442-501 | for each journal written in any history: exactly when the next run accepts it |
| `JournalRuns.RecordedPollRefused` | scripts/pipeline/analytics/athena_run.py:608-609 | recording a poll of a statement that is not the last one always writes a journal that every later run refuses |
| `JournalRuns.ResumedJournalRefused` | scripts/pipeline/analytics/athena_run.py:479 | the smallest such input: two entries, the first VERIFIED and polled again as SUCCEEDED |
| `JournalRuns.PagesUnderWayRefused` | scripts/pipeline/analytics/athena_run.py:490-496 | the other such input: pages under way and any state but SUCCEEDED written over them |
| `ResultPages.RowCount` | scripts/pipeline/analytics/athena_run.py:254-314 | every data row of every page is in the result exactly once, in page order, less one header row for SELECT |
| `ResultPages.AppendRows` | scripts/pipeline/analytics/athena_run.py:285-304 | the rows of a page are appended decoded and in order, within the row limit, or the page is refused |
| `ResultPages.JudgePage` | scripts/pipeline/analytics/athena_run.py:254-314 | a page that is accepted continues the gathering, and the last one completes it within the page and byte limits |
| `ResultCells.CompleteIsResult` | scripts/pipeline/analytics/athena_run.py:254-314 | in a complete result row i is the body row at that place in page order: for SELECT with a cell for each column, None where missing and otherwise what the decoder gives for that column and text; for DESCRIBE the one present string; within the limits of pages, rows and bytes |
| `ResultCells.ResultIsComplete` | scripts/pipeline/analytics/athena_run.py:254-314 | and every result that is so, place by place, is accepted |
| `ResultCells.CellsExactly` | scripts/pipeline/analytics/athena_run.py:285-304 | cell j of a row is decoded under column j, as JSON exactly when that column is listed |
| `AthenaRun.Process.ExecutePlan` | scripts/pipeline/analytics/athena_run.py:553-670 | a refused journal causes no call, no write and no start; from every accepted journal, all that the run persists is accepted again exactly when no poll was recorded (two entries or more found), when the entry was not written out of SUCCEEDED (one entry with result pages under way), and always (otherwise); success means eighteen executions each proven; and when nothing goes wrong, whatever the number of polls and pages, a run from an empty journal does succeed |
| `ProvenRun.ProvenMeans` | scripts/pipeline/analytics/athena_run.py:553-670 | a proven entry, field by field: its request and token; an execution with that identifier, in the workgroup, database and catalog, of that SQL; submitted and completed inside the deadline of the first submission, by times that agree; nothing reused, within the scan limit; and its result the expected rows |
| `AthenaRun.Process.RunStatement` | scripts/pipeline/analytics/athena_run.py:569-662 | one statement: only its own entry changes; it ends VERIFIED with proven results and the journal on disk, or a failure or timeout is on disk and closed |
| `AthenaRun.Process.Conclude` | scripts/pipeline/analytics/athena_run.py:610-619 | a succeeded poll ends in Done inside the deadline, in a timeout recorded on disk outside it, and in an error when its times are missing or disagree; a failed or cancelled one ends in the failure |
| `AthenaRun.Process.PollOnce` | scripts/pipeline/analytics/athena_run.py:601-609 | one more read is counted, and the state written is the one the service reported, for this execution |
| `AthenaRun.Process.AwaitAndVerify` | scripts/pipeline/analytics/athena_run.py:600-662 | whatever ends the polls or the checks of a statement, the journal on disk is the one in memory; success means a proven entry |
| `AthenaRun.Process.StartStatement` | scripts/pipeline/analytics/athena_run.py:580-591 | one more attempt is counted, on disk, before the start is sent and whatever comes of it; success leaves the execution the service holds for the token on disk |
| `AthenaRun.Process.StartExecution` | scripts/pipeline/analytics/athena_run.py:580-591 | a start is sent only with the attempt already on disk, and a start that is answered has the service holding that execution for the token |
| `AthenaRun.Process.Write` | scripts/pipeline/analytics/athena_run.py:577-582 | a journal write is all or nothing under a crash, and is refused later exactly as the entry written says |
| `AthenaRun.Process.Preserve` | scripts/pipeline/analytics/athena_run.py:596-598 | what was observed is on disk before its identity is judged, and nothing but the observation changes |
| `AthenaRun.Process.ReadExecution` | scripts/pipeline/analytics/athena_run.py:389-439 | an answer is on disk as what was observed before it is judged, whether it is then taken or refused; it is taken only when it is about the execution and the request of the entry: identifier, workgroup, database, catalog, tokens of the SQL and parameters |
| `ExecutionIdentity.OneAnswerOneStatement` | scripts/pipeline/analytics/athena_run.py:389-439 | one answer is never taken for two requests that differ in more than a final terminator or the database qualifier of a DESCRIBE, nor for two workgroups, databases, or lists of returned parameters |
| `ExecutionIdentity.TakenExactly` | scripts/pipeline/analytics/athena_run.py:389-439 | an answer is taken exactly when identifier, workgroup, database, catalog, parameters and the tokens of its SQL are those of the request, under one of three rules: the same tokens, without the one terminator at the end, or a DESCRIBE without its database |
| `ExecutionIdentity.SameEssence` | scripts/pipeline/analytics/athena_run.py:412-430 | whichever of the three rules admits the SQL of an answer, it is the statement sent, but for at most the terminator or the qualifier left out, never added |
| `ExecutionIdentity.SameTextButSpace` | scripts/pipeline/analytics/athena_run.py:317-369 | under the exact rule the text that came back is the one sent but for ASCII white space between its tokens |
| `AthenaRun.Process.Await` | scripts/pipeline/analytics/athena_run.py:600-634 | the poll loop ends with a success inside the deadline, with the failure or cancellation the service reported, or with the timeout of a query not known to have succeeded in time, each closed on disk; and it does end with the success when the polls find one in time |
| `AthenaRun.Process.TimeOut` | scripts/pipeline/analytics/athena_run.py:624-633 | past the deadline the entry is closed on disk, then the query is stopped, and looked at once more, and what that shows is on disk with the timeout |
| `AthenaRun.Process.ReadResults` | scripts/pipeline/analytics/athena_run.py:254-314 | at most sixteen pages, each on disk before its shape is judged, so that a page that is refused is there; a result is returned only when complete |
| `AthenaRun.Process.CompareResults` | scripts/pipeline/analytics/athena_run.py:647-657 | the complete result is on disk before it is compared, so that rows that differ are kept; the comparison succeeds exactly on the expected rows in any order, or for a DESCRIBE on any at all |
| `AthenaRun.Process.Retransmit` | scripts/pipeline/analytics/athena_run.py:928-942 | the one start of unknown outcome is sent again with its own request and token, and every entry then has an execution |
| `AthenaRun.Process.Readback` | scripts/pipeline/analytics/athena_run.py:898-942 | `resource_readback` writes no journal that is later refused and records no poll; from a refused journal it does nothing at all |
| `AthenaRun.Process.Rounds` | scripts/pipeline/analytics/athena_run.py:553-670 | any number of runs and read-backs one after the other, each crashing anywhere, keep the write-ahead invariant, one execution for each statement and at most eighteen |
| `Tiling.CursorDecidesPartition` | scripts/pipeline/analytics/athena_restore.py:167-225 | on nonempty intervals in order of their starts the running cursor succeeds exactly when they partition [0, end) |
| `Tiling.SortedCursorDecidesPartition` | scripts/pipeline/release/evidence_archive.py:199-204 | sorting intervals and sweeping them decides whether they partition [0, end), in whatever order they are listed: the test of one reader is the test of the other |
| `Tiling.OverlapStopsSweep` | scripts/pipeline/release/evidence_archive.py:179-180 | two overlapping members never belong to a partition, so the pairwise test only repeats what the sweep decides |
| `ZipReader.CountDirectory` | scripts/pipeline/release/evidence_archive.py:124-133 | the bounding loop succeeds exactly when the directory parses into at most 4096 entries that end at the end record |
| `ZipReader.ExpansionBudget.Member` | scripts/pipeline/release/evidence_archive.py:106-108 | the member limit over all archives of one budget |
| `ZipReader.ExpansionBudget.Consume` | scripts/pipeline/release/evidence_archive.py:110-112 | the byte limit over all archives of one budget |
| `ZipReader.ReadMember` | scripts/pipeline/release/evidence_archive.py:141-198 | a member is read exactly when its entry, local header, descriptor and data are sound and the budget covers it |
| `ZipReader.SweepSorted` | scripts/pipeline/release/evidence_archive.py:200-204 | the sorted sweep answers exactly whether the extents partition the bytes before the directory |
| `ZipReader.ReadZip` | scripts/pipeline/release/evidence_archive.py:115-208 | an archive is accepted exactly when it is readable (sound members without name collisions whose extents partition the bytes before the directory) and within the budget, and then its contents are returned and counted |
| `ZipMeaning.ReadableMeans` | scripts/pipeline/release/evidence_archive.py:115-208 | every readable archive on its bytes: the end record; the directory headers one behind the other; each of a regular, unencrypted member with a good name, its local header, sizes, checksum and data; and every byte in front of the directory in exactly one member; what is returned are these members |
| `ZipMeaning.MeansReadable` | scripts/pipeline/release/evidence_archive.py:115-208 | and every sequence of bytes that is so is readable |
| `ZipNames.SafePathExactly` | scripts/pipeline/release/evidence_archive.py:82-88 | a path is safe exactly when it has 1 to 512 characters, all allowed, at most fifteen slashes, and between them nothing empty and neither one dot nor two |
| `ZipNames.CompatibleExactly` | scripts/pipeline/release/evidence_archive.py:143-147 | two names collide exactly when they are equal but for the case of letters, or one is a directory above the other |
| `RestoreReader.WalkDecides` | scripts/pipeline/analytics/athena_restore.py:167-225 | on sound members the cursor decides partition, in order of offsets and in the order the directory lists them |
| `RestoreReader.ReadMember` | scripts/pipeline/analytics/athena_restore.py:184-219 | a member is read exactly when its headers and data are sound and its size fits its own limit and the total |
| `RestoreReader.ArchiveMembers` | scripts/pipeline/analytics/athena_restore.py:159-228 | an archive is restored exactly when every member is allowed and sound, names are distinct, the extents partition the bytes before the directory and the required documents are there; every member is in the inventory |
| `RestoreMeaning.RestorableMeans` | scripts/pipeline/analytics/athena_restore.py:159-228 | every restored archive on its bytes: the end record and headers, the last of which may claim more than there is; each member of a reviewed name within its limits, its local header repeating the directory or leaving what the descriptor has; the members one behind the other from the first byte to the directory; the inventory is these, in that order |
| `RestoreMeaning.MeansRestorable` | scripts/pipeline/analytics/athena_restore.py:159-228 | and every sequence of bytes that is so is restored |
| `ZipWriter.ZipSize` | scripts/pipeline/release/evidence_archive.py:217-218 | the length of what is written is exactly the precheck sum of data + 2 * name + 76 for each file plus 22 |
| `ZipWriter.CentralParsed` | scripts/pipeline/release/evidence_archive.py:228-231 | a central record as written is parsed back into its file, offset and metadata |
| `ZipWriter.MemberReadBack` | scripts/pipeline/release/evidence_archive.py:228-231 | a member as written passes every test of the reader under custody and gives its bytes back |
| `ZipWriter.DirectoryRead` | scripts/pipeline/release/evidence_archive.py:222-233 | the whole written directory is parsed back, entry by entry |
| `ZipWriter.RoundTrip` | scripts/pipeline/release/evidence_archive.py:211-235 | what is written reads back as the files that were packed, and is readable under custody exactly when no two names collide |
| `ZipWriter.CheckSizes` | scripts/pipeline/release/evidence_archive.py:211-219 | the precheck passes exactly when every path is safe, every file within its limit and the archive within its own |
| `ZipWriter.WriteAll` | scripts/pipeline/release/evidence_archive.py:220-232 | the writing loop ends with the archive, or refuses a colliding name or a secret |
| `ZipWriter.MakeZip` | scripts/pipeline/release/evidence_archive.py:211-235 | a file map is packed exactly when it is acceptable, into exactly the checked number of bytes, and reading it under custody returns the map |
| `ZipMeaning.PacksExactly` | scripts/pipeline/release/evidence_archive.py:211-235 | which file maps are packed, name by name: 1 to 4096 files, good names that do not collide, each within 32 MiB and without a secret, and the whole within 64 MiB |
| `SqlLexer.Lossless` | scripts/pipeline/analytics/athena_run.py:317-369 | the accepted text is its tokens with ASCII white space between them and nothing else |
| `SqlLexer.TokenStays` | scripts/pipeline/analytics/athena_run.py:332-367 | a token keeps its length whatever follows behind a space, doubled quotes, comments and two-character operators included |
| `SqlLexer.Relex` | scripts/pipeline/analytics/athena_run.py:317-369 | lexing the tokens joined by single spaces gives the same tokens |
| `SqlLexer.JoinedTokensAccepted` | scripts/pipeline/analytics/athena_run.py:317-369 | the joined tokens are accepted, with the same tokens, exactly when the joined text is within the size limit and not empty |
| `SqlLexer.QuoteStop` | scripts/pipeline/analytics/athena_run.py:339-351 | the quote loop stops behind the closing quote, doubled quotes being content |
| `SqlLexer.TokenStop` | scripts/pipeline/analytics/athena_run.py:328-368 | one turn of the loop stops where the token ends, or refuses it |
| `SqlLexer.Lex` | scripts/pipeline/analytics/athena_run.py:317-369 | the loop computes the tokens the theorems are about |
| `SqlTokens.AcceptedExactly` | scripts/pipeline/analytics/athena_run.py:317-369 | a text is accepted with given tokens exactly when its UTF-8 form is within the size limit and the tokens stand in it one behind the other with only white space around them |
| `SqlTokens.TokenExactly` | scripts/pipeline/analytics/athena_run.py:332-367 | which fronts of a text are a token, character by character: a line comment with its newline, a block comment without another inside, a quotation with doubled quotes and no backslash, a whole word, a whole number with no letter behind it, one of six signs of two characters or seventeen of one |
| `ViewGrammar.SameNodeExactly` | scripts/pipeline/analytics/athena_run.py:807-827 | two conditions give the same node exactly when they differ only in parentheses around a single node |
| `ViewGrammar.NestedIsNotFlat` | scripts/pipeline/analytics/athena_run.py:822-827 | an AND group inside an AND is never the flat list |
| `ViewGrammar.PrintedMeans` | scripts/pipeline/analytics/athena_run.py:751-870 | the printed query of a well-formed structure has that structure |
| `ViewGrammar.SameMeaningExactly` | scripts/pipeline/analytics/athena_run.py:751-870 | two queries have the same structure exactly when they differ only in optional INNER and AS and in parentheses that return the same node |
| `ViewGrammar.QueryDepthIs` | scripts/pipeline/analytics/athena_run.py:703-748 | the parentheses of a query balance and pass the depth limit exactly when its nesting does |
| `ViewParser.QueryReadBack` | scripts/pipeline/analytics/athena_run.py:751-870 | every query of the grammar, with any choice of optional words and parentheses, is parsed back as it was written |
| `ViewParser.QueryWritten` | scripts/pipeline/analytics/athena_run.py:751-870 | the tokens of every accepted query are that query as written: nothing else is accepted |
| `ViewParser.ParsesExactly` | scripts/pipeline/analytics/athena_run.py:751-870 | parser and grammar agree on every token list |
| `ViewLexer.LayoutRead` | scripts/pipeline/analytics/athena_run.py:703-748 | every layout of tokens, with any white space and keyword case, is lexed into them |
| `ViewLexer.TextLaid` | scripts/pipeline/analytics/athena_run.py:703-748 | every accepted text is such a layout of its tokens |
| `ViewReader.LayoutMeans` | scripts/pipeline/analytics/athena_run.py:751-870 | any layout of any writing of a query gives its structure exactly when the limits and alias rules hold, and is refused otherwise |
| `ViewReader.StructureIsWritten` | scripts/pipeline/analytics/athena_run.py:751-870 | every accepted text is a layout of a writing of a query with the structure returned |
| `ViewReader.SameStructureExactly` | scripts/pipeline/analytics/athena_run.py:751-870 | two accepted texts have the same structure exactly when their queries differ only in optional words and parentheses that return the same node |
| `ViewMeaning.SpellsExactly` | scripts/pipeline/analytics/athena_run.py:703-748 | how each token is written, character by character: a reserved word in any case, a lower-case name that is none, a literal with doubled quotes, a sign |
| `ViewMeaning.DepthExactly` | scripts/pipeline/analytics/athena_run.py:735-747 | parentheses are accepted exactly when none is closed before it is opened, never more than four are open, and all are closed |
| `ViewMeaning.AliasesExactly` | scripts/pipeline/analytics/athena_run.py:865-869 | aliases are sound exactly when a join declares two different ones and every name written in the columns, behind ON and behind WHERE is qualified by a declared one |
| `ViewReader.PrintedReadBack` | scripts/pipeline/analytics/athena_run.py:751-870 | every layout of the query printed for a well-formed structure, within the limits and with sound aliases, is read back as that structure; that there is one is the next row |
| `ViewPrinter.PrintReadBack` | scripts/pipeline/analytics/athena_run.py:751-870 | `view_structure` is a left inverse of the printer: the text printed for a well-formed structure with lexable names and literals gives that structure back exactly when it is within the limits and its aliases are sound, and is refused otherwise |
| `ViewPrinter.AcceptedIsPrintable` | scripts/pipeline/analytics/athena_run.py:751-870 | every structure returned for any text is one that can be printed, so printing and reading again gives the same structure unless the optional words it writes pass a limit |
| `ViewPrinter.QueryLexes` | scripts/pipeline/analytics/athena_run.py:703-748 | the tokens of a query are all ones the lexer reads exactly when the names and literals of its structure are |
| `ViewReader.Lex` | scripts/pipeline/analytics/athena_run.py:703-748 | the lexing loop, checking depth and count token by token, computes the tokens the theorems are about |
| `ViewReader.Parser.ReadQuery` | scripts/pipeline/analytics/athena_run.py:828-870 | the recursive descent over the shared index computes the structure of the parsed query |
| `ViewReader.ReadView` | scripts/pipeline/analytics/athena_run.py:751-870 | `view_structure` as run is the function the theorems are about |
| `EvidenceStore.FrozenSameExactly` | scripts/pipeline/release/evidence_store.py:37-59 | two frozen objects are equal exactly when their bytes and their application metadata are, in whatever order it was given |
| `EvidenceStore.UndisturbedIsAtomic` | scripts/pipeline/release/evidence_store.py:142-161 | without faults `create_once` is one step of an atomic create-once map |
| `EvidenceStore.RetrySettles` | scripts/pipeline/release/evidence_store.py:142-161 | after any faulty first call an undisturbed retry settles: a conflict exactly when other content was there before, otherwise this content written once by both calls together |
| `EvidenceStore.AnswersTrue` | scripts/pipeline/release/evidence_store.py:142-161 | in every interleaving of any number of calls, with lost responses, failures and abandoned calls: nothing is replaced, each key is written at most once, and every answered call was told the truth about what is stored |
| `EvidenceStore.AtMostOneCreated` | scripts/pipeline/release/evidence_store.py:142-161 | at most one call for each key is answered CREATED |
| `EvidenceStore.OwnWriteNeverConflicts` | scripts/pipeline/release/evidence_store.py:142-161 | a call whose own creation landed, even unheard, never reports a conflict |
| `EvidenceStore.StepKeeps` | scripts/pipeline/release/evidence_store.py:142-186 | one step of any call keeps everything known of every call and of every write |
| `EvidenceStore.CheckKeys` | scripts/pipeline/release/evidence_store.py:131-140 | an inventory is accepted exactly when it is bounded, under its prefix, sorted and without repetition |
| `EvidenceStore.VersionsDistinct` | scripts/pipeline/release/evidence_store.py:179-186 | version names of different creations differ |
| `EvidenceStore.MemoryTransport.PutIfAbsent` | scripts/pipeline/release/evidence_store.py:179-186 | creates only an absent key, under a version no other object has |
| `EvidenceStore.MemoryTransport.Get` | scripts/pipeline/release/evidence_store.py:120-129 | finds the object, the exact version when one is asked for, or says which of absent and failed it is |
| `EvidenceStore.MemoryTransport.CreateOnce` | scripts/pipeline/release/evidence_store.py:142-161 | `create_once` as run, against any faults, is the call the theorems are about |
| `EvidenceStore.MemoryTransport.Keys` | scripts/pipeline/release/evidence_store.py:188-190 | lists exactly the keys under the prefix, in order, unless there are more than 4096 |
| `Intake.Cover` | scripts/pipeline/analytics/intake.py:173-184 | coverage is refused exactly when rows of one key name different index digests, and otherwise holds exactly what the rows say |
| `Intake.ApartBothWays` | scripts/pipeline/analytics/intake.py:204-218 | sharing no identity, artifact or observation is symmetric |
| `Intake.ApartExactly` | scripts/pipeline/analytics/intake.py:204-218 | two coverages are apart exactly when no row of one shares its identity, artifact or observation with a row of the other |
| `Intake.FindClash` | scripts/pipeline/analytics/intake.py:204-215 | a clash is found exactly when two artifacts share an identity or an artifact id; it is called already ingested only for the same bytes |
| `Intake.Deduplicate` | scripts/pipeline/analytics/intake.py:204-218 | passes exactly when the new coverage is apart from every entry but the one of its own kind and name, and otherwise says which of the three refusals it is |
| `Intake.CheckArtifacts` | scripts/pipeline/analytics/intake.py:69-86 | the loop over the requested artifacts passes exactly when no two share a framework, an artifact id or an archive |
| `Intake.Root.Entries` | scripts/pipeline/analytics/intake.py:191-201 | the ledger read is exactly the registered snapshots and the committed lots |
| `Intake.Root.CommitLot` | scripts/pipeline/analytics/intake.py:248-299 | `process`: creates exactly the new lot, with its request, destination, snapshot and coverage, exactly when the name is new, the artifacts differ, the rows are consistent and apart from every entry; an identical retry is the same request and destination found intact; every refusal has its own reason and leaves the lots as they were |
| `Intake.Root.CommitClosed` | scripts/pipeline/analytics/intake.py:348-373 | `register_closed`: adds exactly the new entry exactly when its name is new and its coverage apart, finds the identical one, or leaves the ledger as it was and says why |
| `Intake.Root.Do` | scripts/pipeline/analytics/intake.py:229-239 | one call: the ledger stays pairwise apart and only grows; under a held lock nothing is committed, and only a killed call leaves the lock |
| `Intake.Root.Run` | scripts/pipeline/analytics/intake.py:248-373 | any sequence of calls, retries, crashes and lock removals keeps any two different entries apart and never rewrites a committed one |
| `Alerts.Destination.OpenAlerts` | scripts/pipeline/operations/alert_delivery.py:234-244 | what is open, by event; refused when an event has two open alerts |
| `Alerts.DeliverOne` | scripts/pipeline/operations/alert_delivery.py:102-130 | attempts stay within the limit, an open alert is updated once and never created again, and an ambiguous creation is looked up before another is tried, so no event gets two open alerts; each attempt leaves the status of its fault, and a destination that answers gets the event delivered at the first |
| `Alerts.FirstVerified` | scripts/pipeline/operations/alert_delivery.py:54-67 | an acknowledgement is taken only when an authorized person gave it after the delivery, and none is missed |
| `Alerts.AckedExactly` | scripts/pipeline/operations/alert_delivery.py:154-166 | an acknowledgement is recorded exactly for each record whose answer holds a verified one, and it is the first of those |
| `Alerts.Acknowledge` | scripts/pipeline/operations/alert_delivery.py:154-166 | at most one acknowledgement for each alert, each verified against a delivered record |
| `Alerts.ResolveCleared` | scripts/pipeline/operations/alert_delivery.py:167-176 | only alerts that were open and are not routed in this cycle are closed |
| `Alerts.Route` | scripts/pipeline/operations/alert_delivery.py:135-140 | exactly the events given are routed, each identifier once, as its last event, and in order, and nothing but their creation is recorded |
| `Alerts.RunCycle` | scripts/pipeline/operations/alert_delivery.py:133-177 | one cycle keeps at most one open alert for each event, attempts within the limit, verified acknowledgements and sound resolutions; with a destination that answers, every routed event is delivered, every other known alert resolved and no longer open, and the acknowledgements recorded are exactly the verified ones heard |
| `Alerts.Operate` | scripts/pipeline/operations/alert_delivery.py:133-177 | over any number of cycles no event ever has two open alerts |
| `PolicyForm.SameFormExactly` | infra/readback.py:34-55 | at every position two values have the same normal form exactly when they are equivalent: equal but for list order at any depth and scalar against one-element list where IAM allows it |
| `PolicyForm.PositionsExactly` | infra/readback.py:41-45 | at which positions a scalar and a list of it are the same: under five keys, directly under a principal, or at least two steps below a condition |
| `PolicyForm.MatchesExactly` | infra/readback.py:51-54 | two lists have the same sorted normal elements exactly when their elements pair off as equivalent |
| `PolicyForm.Idempotent` | infra/readback.py:34-55 | normalizing twice changes nothing, on every JSON tree |
| `PolicyForm.DocumentsSameExactly` | infra/readback.py:34-55 | two documents compare equal exactly when they are equivalent |
| `PolicyForm.SortForgetsOrder` | infra/readback.py:51-54 | sorting forgets the order of a list and nothing else |
| `Dockerfile.JoinLines` | examples/audited-consumer/audited_consumer.py:620-642 | the loop joins the lines as the theorems about them say, or refuses a parser directive |
| `Dockerfile.ContinuationJoins` | examples/audited-consumer/audited_consumer.py:632-639 | an instruction continued over lines, with comments and empty lines between, is read as one |
| `Dockerfile.EveryRootTrusted` | examples/audited-consumer/audited_consumer.py:645-702 | with no finding every stage was read and expands nothing, and, through any chain of aliases, is rooted in an argument the lock provides whose declaration as it stands for the whole file has no default, or in scratch; the last one in the runtime argument |
| `Dockerfile.NothingFromOutside` | examples/audited-consumer/audited_consumer.py:690-696 | with no finding every image a COPY, ADD or RUN takes is the alias of a stage in front or a stage number, and no remote file comes without its checksum |
| `Dockerfile.DeclaredSettled` | examples/audited-consumer/audited_consumer.py:657-661 | what an argument was declared as is settled at the first FROM: nothing behind it changes that |
| `Dockerfile.DeclaredEarly` | examples/audited-consumer/audited_consumer.py:657-661 | a declaration that counts is one in front of the first FROM |
| `Dockerfile.DeclaredExactly` | examples/audited-consumer/audited_consumer.py:657-661 | what an argument is declared as is what the last token of its name says in the last instruction in front of the first FROM that names it |
| `Dockerfile.LatestExactly` | examples/audited-consumer/audited_consumer.py:662-689 | an alias is the latest stage of that name, in any case |
| `Dockerfile.CheckFrom` | examples/audited-consumer/audited_consumer.py:662-689 | one FROM: its root, and a finding exactly when it is neither trusted nor an alias nor scratch |
| `Dockerfile.CheckUses` | examples/audited-consumer/audited_consumer.py:690-696 | a finding exactly when an image is taken from outside the stages or a remote ADD has no checksum |
| `Dockerfile.CheckLines` | examples/audited-consumer/audited_consumer.py:645-702 | no finding exactly when every instruction passes and the last stage is rooted in the runtime argument |
| `Dockerfile.CheckDockerfile` | examples/audited-consumer/audited_consumer.py:645-702 | an error exactly for a refused directive; otherwise no finding exactly when the Dockerfile is clean |
| `Cron.CronField` | scripts/pipeline/operations/operational_health.py:221-237 | the values grown part by part are exactly the numbers some part selects; refused exactly when a part is |
| `Cron.FieldMeans` | scripts/pipeline/operations/operational_health.py:221-237 | a field written from parts is read back as the numbers they ask for, and refused exactly when one part is out of range, backwards or has step zero |
| `Cron.RangeExactly` | scripts/pipeline/operations/operational_health.py:236 | a range with a step holds exactly the numbers of its residue between its bounds |
| `Cron.CronOccurrences` | scripts/pipeline/operations/operational_health.py:240-263 | the minute-by-minute loop lists the occurrences the theorems are about, or refuses the expression |
| `Cron.OccurrencesExactly` | scripts/pipeline/operations/operational_health.py:255-263 | the list is strictly increasing and holds exactly the whole minutes of the window, both ends included, whose minute and hour match |
| `Cron.ExpressionMeans` | scripts/pipeline/operations/operational_health.py:221-263 | an expression written from the parts of its minute and hour fields is refused exactly when a part is out of range, and otherwise holds, in strict order, exactly the whole minutes of the window that both fields ask for |
| `Cron.WholeDaysCount` | scripts/pipeline/operations/operational_health.py:240-263 | over whole days there are days * minutes * hours occurrences |
| `Cron.InTimeSorts` | scripts/pipeline/operations/operational_health.py:315 | runs are taken in the order of their instants, those of one instant in their given order |
| `Cron.ScheduleHealth` | scripts/pipeline/operations/operational_health.py:306-337 | the loop over the sorted runs gathers the coverage, duplicates, delays and missing occurrences the theorems are about |
| `Cron.CoveredExactly` | scripts/pipeline/operations/operational_health.py:316-323 | each covered occurrence holds exactly the runs measured against it, in order |
| `Cron.PreviousIsGreatest` | scripts/pipeline/operations/operational_health.py:317-320 | a run is measured against the greatest occurrence not after it, and skipped exactly when there is none |
| `Cron.RunsSplit` | scripts/pipeline/operations/operational_health.py:315-324 | every run not before the first occurrence is measured once: as the first of its occurrence or as a duplicate |
| `Cron.DelaysMeasured` | scripts/pipeline/operations/operational_health.py:324 | each delay is the distance to the greatest occurrence not after the run |
| `Cron.MissingExactly` | scripts/pipeline/operations/operational_health.py:328-335 | covered and missing occurrences are disjoint, together exactly the expected ones, and add up in number |
| `Cron.MissedMeansNoRun` | scripts/pipeline/operations/operational_health.py:328-331 | an occurrence is missing exactly when no run was created from it until the next one |

## Left out

- The real services, their credentials and their error texts: only the outcomes the code tells apart remain.
- SHA-256, canonical JSON, JSON and YAML parsing, Parquet, CRC-32 and deflate: free constructors or function parameters, as described above.
- Local directories of a plan (`save_plan`, `load_plan`, `prepare_snapshot`, `recover_snapshot`) and symbolic-link checks: file-system detail around the modelled plan.
- Recovery.ListingRuns: the fault-free service of the recovery theorems fills every page of a listing; one that sends short pages needs more of the page budget than the condition counts.
- SnapshotClient.Client.Publishes: the object keys are structured values, so the checks of key spelling in `_arguments` are not modelled.
- S3Adapter.ListedExactly: scope fields of a page that only repeat the request (bucket name, prefix, key count) are taken as part of a page being well formed.
- AthenaRun.Process.ReadExecution: what `_safe_execution` leaves out of the answer it keeps, and the hashes of the comparison, are not modelled; the output location and the engine version are judged later and are booleans of the answer.
- AthenaRun.Process.Readback: the comparison of workgroup, database, table and view definitions in the catalog is left out; what it does with the journal and the service is modelled.
- AthenaRun.Process.Await: clocks are real numbers that are not negative; infinities and not-a-number, which the code refuses, are not values of the model.
- JournalRuns.DeadlineNeverExtended: exact real arithmetic, without the rounding of floating point.
- AthenaRun.Process.ExecutePlan: the call counters and the summary fields of the report that add up scanned bytes are not modelled.
- ZipReader.ReadZip: the ZIP64 locator and the search for the end record inside Python's `zipfile` are not modelled; the end record is where the code requires it.
- ZipReader.ReadMember: the compressed bytes are expanded by one function of the bytes and the chunk loop counts its result.
- ZipFormat: names are the ASCII that safe paths allow once decoded; case folding is that of ASCII.
- `extract_new`, `inventory` and `document`: loops that copy or compare, which add nothing hard.
- SqlLexer.Lex: the offset reported for an unsupported text is not modelled.
- ViewReader.ReadView: error reasons and offsets are not modelled, only that the text is refused.
- Intake.Root.CommitLot: acquisition, staging and the read-back of an existing lot are inputs of the call (what was staged, whether the lot is intact); ledger files that cannot be read are not modelled.
- Intake.Root.Run: calls take turns under the lock, as the lock file makes them; a call that finds the lock held is one of the calls.
- Alerts.RunCycle: the final summary (`report`) and the rendering of an alert are left out.
- PolicyForm.SameFormExactly: scalars are their JSON texts, so Python's equality of `True` and `1` is not modelled.
- Dockerfile.CheckDockerfile: the splitting of a line into its instruction and arguments by regular expressions is the parameter `Reader`; error messages are not modelled.
- Cron.CronOccurrences: instants are microseconds of UTC; other time zones are not modelled.
- Cron.ScheduleHealth: percentages, distributions of delays, gaps and ages are statistics and left out.
- EvidenceStore.MemoryTransport.CreateOnce: a connection that returns an object of another key under the right version is not modelled.
- `attribute_runs`, `framework_health`, `evaluate`, governance and configuration validators, report writing and argument parsing: long conjunctions or summaries that a reading settles.
