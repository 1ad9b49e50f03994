# metabib: models and proofs

Dafny models of the parts of metabib that keep state over a long run, with proofs of what those
parts promise. `dafny verify dfyconfig.toml` checks all of it.

## What is modelled

**Worker pipeline** (`Pipeline`, `PipelineProgress`, `PipelineErrors`, `PipelineCoordinator`). `library/process.go` runs
the same protocol twice, over database batches and over archive entries. `Pipeline` is a transition
system: each atomic action of the coordinator, of a worker, of the goroutine that waits for the group and
of the environment (cancellation, a failing worker, a failing sink) is a step, and a run is any
interleaving. Proved for every run: order, bounded window, no blocked and no forbidden send, no deadlock,
termination, clean shutdown, and which error is returned. The class `Coordinator` holds the coordinator's own loops. Between any two of its
actions the others may make any steps at all, cancellation included; only while it waits for them does
something have to move if anything can (`Fair`). Each method (`SubmitOne`, `WriteRecord`, `Receive`, `End` and the
others) is shown to be a run of the protocol, and `Run` to return always.

**Resumable download** (`Download`, `DownloadAttempts`, `DownloadProgress`, `Downloader`, `DownloadDates`). The disk is a partial file, a sidecar and a published
file. The server may change the representation at every request. Equal strong entity tags mean equal bytes; of dates
nothing is taken for granted: two versions may share one. Against servers that answer as RFC 9110 has it, a date in
If-Range getting a part only if it is strong (sections 8.8.2.2 and 13.1.5), no mixture of versions can be resumed or
published. Against servers that compare dates and no more, `DownloadDates` says exactly when that holds. Every disk
operation works, fails, or kills the process half way, as a script decides, so a property that every method keeps for
every script holds at every crash point. What a download achieves when the disk works is said in terms of the server's
answers: which ones finish it, after any temporary failures, and that breaking connections finish it in the end.

**Rollup** (`RollupEntries`, `RollupPass`, `RollupConservation`, `RollupRanges`, `RollupKeys`, `RollupDisk`,
`RollupSound`, `RollupRun`, `RollupBooks`, `RollupSize`, `RollupSessions`, `RollupState`, `RollupPeriods`, `RollupRunner`,
`RollupCrash`, `Calendar`, `RollingDuration`, `Decimal`). Archives are a name range and a list of entries. A pass is a function of the entries
it reads, and the imperative loops are proved equal to it: `Worker.ProcessUpdates` over its handlers `CopyEntry`,
`FinalizeWork`, `Consider` and `ReadArchive`. On it rest conservation, exact and disjoint name ranges, unique keys,
safety at every crash point, and, over any sequence of runs, a sound directory that loses no book and stores what it was
given once, and under the period policies a state file that agrees with it. Books survive any mixture of runs and
crashes, too, even where a crash has left the directory unsound. Lower case in usr names is any
mapping of letters that leaves digits, signs and the dot alone, as unicode.ToLower is. Calendar buckets are date
arithmetic on the proleptic Gregorian calendar with ISO week dates.

**FB2 body fingerprints** (`BodyBuilder`, `BodySections`, `BodyTags`, `Histograms`, `RankedWords`, `Base64`,
`Varint`, `FingerprintBytes`, `FingerprintCodec`, `SectionTree`, `FingerprintEndToEnd`). From the tags and texts
of a book over the builder, the pruned section list, the packed text and back to a tree. The builder's handlers
`StartBody`, `EndBody`, `StartSection`, `EndSection`, `Add` and `OnEvent` update it in place as the function `Handle`
says, which the theorems iterate. MD5 is an arbitrary function to 16 bytes.

**MHL INPX writer** (`IndexRanges`, `InpxWriter`, `InpxLayout`, `InpxOrder`, `InpxStreams`, `InpxLoader`, `InpxBooks`,
`InpxCounts`). The
streaming writer with its lazily created members and pending dummies, the validators in front of it for both
orderings a header can declare, and the map-based loader it has to agree with. The writer's methods `FillTo`,
`EnsureActiveWriter`, `WriteRecordAt`, `Advance`, `WriteRecord` and `Close` are the steps `WriteStream` is made of. The
content filter and the renderer are arbitrary functions.

**Names and identities** (`Spaces`, `AuthorKeys`, `AuthorSuffixes`, `AuthorNicknames`, `FilenameIndex`). Author
suffixes that must not render to the same key, and the index that resolves file names to database books. Ids are
decimals as the collector writes them. `Build` reads each group and assigns its suffixes with `AddGroup` and
`Assign`; `AddAll` takes the claims one by one with `AddDatabaseFile`.

**SQL fix-up** (`SqlFixup`). The dump filter as a reader with buffers of any size, and as a writer into a sink that may
fail anywhere.

Classes and methods with loops stand where the program updates variables in place; each is tied by its
postcondition to a function of the old state, and the theorems are about that function.

## Where the stronger claim fails

Each of these comes with the exact condition.

- The client keeps any Last-Modified date that parses and sends it in If-Range, which section 13.1.5 of RFC 9110 allows
  for strong dates only. A server that compares dates and no more can then make it put the beginning of one version and
  the rest of another together and call that complete (`VersionsAreMixed`). In every run against such servers the state
  identifies the version the bytes are of, if and only if any two versions of the file with one date splice to a third
  one with that date (`DatesDecide`); a strong date is the case with one version. Such a server may leave the entity tag
  out of an answer, so that the date is what the client keeps; with entity tags in all answers dates do not matter
  (`TaggedRunIsIdentified`).
- Rollup under the size policy loses books when ids do not arrive in order: after a finalization the end jumps to
  the last id (`LateLowerIDIsLost`, `SharedIDIsLost`). It conserves every eligible key for all target sizes if
  and only if each key first shows up with an id above all ids before it (`SizeConservesIff`). fb2 updates in id
  order meet that (`FB2InOrderDelivers`).
- A book beyond the end is missed when the name of its update archive ends too low (`SelectIs`).
- Reopening the last archive drops its empty and non-numeric entries, and nothing else (`ReopenDropsUnusable`). Its
  size does not count against the target, so size bounds are about newly appended entries (`RunSized`).
- A crash after a grown merge archive is published and before the state is saved makes the next run stop with an error
  (`CrashedRunStops`); no book is lost (`RunIsSafe`), but the directory has to be put right by hand.
- A crash between the first publication of a run and the removal of the archive it continues leaves two archives that
  start at the same book, and only there is the directory not sound (`CrashIs`). If the continued one was a merge
  archive, the next run stops. If it was the last final archive, reopened under the size policy, the next run goes on,
  and no later run puts the directory right (`TangledStays`); still no book is lost (`SessionsKeep`).
- The packed fingerprint does not hold the first section's depth and leaf flag (`ExactRoundTrip`). A list is packed at
  all if and only if its keys hold 16 bytes and no depth but the first is negative (`PackableIff`).
- A section list is rejected when words are cut off from the sections above them. A body start or end while two or
  more sections are open is exactly what makes that possible (`TagsDecide`). With one `body` a child of the root
  element at a time this takes an inner `</body>`.
- The streaming writer and the map-based loader differ if and only if a record lies beyond its archive's entries
  (`StreamAgreesWithMaps`). A repeated locator is an error for the one and ignored by the other (`WrittenIff`). For
  streams of books they differ when the content filter drops some records and keeps others: the writer numbers the
  records it keeps, the loader all (`BooksAgreeWithMaps`).
- After a crash between removing the part and removing the sidecar a download is fetched afresh and may publish another
  version; while both are there a re-run publishes the same (`Reruns`).
- Author suffixes can collide through nicknames that look like the mark of an id; `NicknamesDecide` says which, for
  nicknames as they stand in the metadata.
- The file name index depends on the order of claims if and only if two claimants tie below a best one
  (`OrderMattersIff`).

## Model

| member | source | states |
|---|---|---|
| Pipeline.InvStep | library/process.go:243-435 | every step of coordinator, worker, waiter or environment keeps the whole invariant: what is written, where each batch is, when channels are closed |
| Pipeline.WrittenIsPrefix | library/process.go:348-435 | on every interleaving, with failures and cancellation, the records written are a prefix of the batch outputs concatenated in index order |
| Pipeline.SuccessIsComplete | library/process.go:392-435 | a run that returns without error has written every batch exactly once, and without a fault there is no other way to return |
| Pipeline.WindowIsBounded | library/process.go:50-52 | queued, in-flight, answered, pending and lost batches add up to nextSubmit - nextBatch, which never exceeds 2W; every submitted unwritten batch is in exactly one place |
| Pipeline.SendsNeverBlock | library/process.go:291-313 | there is always room in the jobs channel for what may be submitted and in the results channel for what a worker holds |
| Pipeline.SendsAreSafe | library/process.go:287-319 | no reachable state sends on a closed channel or blocks in a send |
| Pipeline.ShutdownIsClean | library/process.go:320-340 | on return both channels are closed and all workers have exited; a closed jobs channel is never written or reopened |
| PipelineProgress.MeasureDecreases | library/process.go:243-435 | every step, faults included, makes a natural number smaller |
| PipelineProgress.RunsAreBounded | library/process.go:243-435 | no run has more than 13 steps a batch plus one a record plus one a worker plus 6 |
| PipelineProgress.Progress | library/process.go:392-435 | in every state short of returning some step that is not a fault can fire: no deadlock |
| PipelineProgress.RunsReturn | library/process.go:392-435 | every unfinished run can be carried on without a fault until the coordinator returns |
| PipelineProgress.StuckMeansReturned | library/process.go:392-435 | a state in which only faults can fire is a returned one |
| PipelineErrors.ErrorOfRun | library/process.go:314-435 | in every run the error returned is the write error if a write failed, the cancellation if it was seen between two writes, whatever the workers returned; otherwise the first error of a worker, or the cancellation that stopped the coordinator if there is none |
| PipelineErrors.ClosedEarlyMeansError | library/process.go:401-407 | the results channel closes with a batch missing only after a worker has returned an error, so the message about workers that stopped early is never what is returned |
| PipelineErrors.UndisturbedRun | library/process.go:243-435 | a returned run in which no worker and no write failed and nobody cancelled has written everything and reports no error |
| PipelineCoordinator.BatchesCover | library/process.go:239-301 | the first k batches hold the records of the first k * size items, once and in order, for the clamped worker and batch counts |
| PipelineCoordinator.RunWritesAllItems | library/process.go:185-435 | whatever the schedule, a successful run writes exactly the records of all items in item order, and any run a prefix of them |
| PipelineCoordinator.Coordinator.SubmitBatches | library/process.go:296-313 | for anything the others do, the loop fills the window and not more and closes the queue exactly when the last batch has been submitted, or ends as cancelled when the workers have stopped |
| PipelineCoordinator.Coordinator.DrainReady | library/process.go:412-424 | what is written only grows; every batch that is next and answered is written and the lower edge stops at the first unanswered one, or a cancellation or a failing sink ends it |
| PipelineCoordinator.Coordinator.Run | library/process.go:243-435 | the coordinator always returns, the workers being gone and the queue closed; what is written is a prefix of the outputs in index order, all of it if there is no error; without a fault there is none, and the error is the one that the steps taken call for |
| PipelineCoordinator.Process | library/process.go:185-435 | for all items, worker counts, batch sizes, schedules and failures: the records of the first items in item order are written, those of all items if no error is reported; the write error is reported if and only if a write failed, which is when the sink fails |
| PipelineCoordinator.FairExists | library/process.go:243-435 | there is an environment of the kind the coordinator is run in, for every configuration |
| Decimal.ParseOfFormat | rollup/rollup.go:384-414 | a written decimal number within 64 bits is read back |
| Decimal.FormatIs | rollup/rollup.go:384-414 | numbers are written with their digits, the most significant first |
| Decimal.ParseIs | fetch/download.go:341-361 | what a text of digits with or without a sign is read as, within 64 bits |
| Decimal.ParseFails | fetch/download.go:341-361 | any other text is not read as a number |
| Download.ContentRangeRoundTrip | fetch/download.go:341-352 | every satisfiable Content-Range of RFC 9110 section 14.4 within 64 bits is read back exactly |
| Download.ResumeIsPrefix | fetch/download.go:88-128 | bytes offered for resuming are a prefix of a version the saved validator names, of every one if it is an entity tag or a strong date; bytes offered as complete are one whole version |
| Download.World.ConformingIsReliable | fetch/download.go:32-48 | the client may rely on every server that grants a range by a strong date only (RFC 9110 sections 8.8.2.2 and 13.1.5) |
| Download.ValidatorIs | fetch/download.go:31-41 | an entity tag in quotes is kept, or else a date that parses, or else nothing |
| DownloadAttempts.WholeFinishes | fetch/download.go:214-323 | a 200 with the whole version finishes the download with one request, whatever was there before |
| DownloadAttempts.RestFinishes | fetch/download.go:251-323 | a 206 with the rest of the version the file begins finishes it |
| DownloadAttempts.NothingLeftFinishes | fetch/download.go:239-250 | a 416 that agrees with the saved total, the offset and the validator finishes it |
| DownloadAttempts.RefusedRestarts | fetch/download.go:239-278 | any other 416, and a 206 for other bytes, another total, length or validator, lets the next attempt start from nothing |
| DownloadAttempts.TransientStays | fetch/http.go:74-113 | no answer and statuses 408, 429 and from 500 on change nothing and let the next attempt ask for the same |
| DownloadAttempts.OtherStatusEnds | fetch/http.go:74-113 | any other status ends the download |
| DownloadAttempts.BadRequestFallsBack | fetch/download.go:217-232 | after a 400 to a range the whole file is asked for at once, and ranges are given up |
| DownloadAttempts.IgnoredRangeIsRemembered | fetch/download.go:270-285 | where a range is ignored although the file has not changed no later attempt asks for one |
| DownloadAttempts.BroughtAfter | fetch/download.go:153-193 | an answer that finishes finishes the download after any number of temporary failures below the limit |
| DownloadProgress.BrokenConnectionsFinish | fetch/download.go:153-193 | wherever each connection breaks: with as many attempts as bytes are missing the download is finished, with one request an attempt |
| Downloader.TruncateKeeps | fetch/download.go:286-291 | a truncated file makes no claim of the sidecar false |
| Downloader.ResumeSameVersion | fetch/download.go:262-265 | an accepted 206 answer to an If-Range request belongs to a version the saved validator names, and under a strong one to a version with the bytes already on disk (RFC 9110 sections 13.1.5 and 15.3.7) |
| Downloader.ResumeContinues | fetch/download.go:251-302 | with its body appended the file is, or begins, one version the saved validator names: the one that was sent if the validator is strong |
| Downloader.NewStateTruthful | fetch/download.go:251-302 | the state saved before the body is true of the file it describes, and some version is what the file is going to be |
| Downloader.BodyContinues | fetch/download.go:303-306 | whatever part of the body has been written, the file is a prefix of that version |
| Downloader.CompleteIsWhole | fetch/download.go:307-322 | what the length checks let pass as complete is one whole version |
| Downloader.UnsatisfiedIsWhole | fetch/download.go:239-250 | a 416 answer whose total agrees with the saved total and the offset means the file is whole (RFC 9110 section 15.5.17) |
| Downloader.Downloader.SaveState | fetch/download.go:66-86 | the sidecar is the new or the old state at every point of failure, and the disk stays truthful |
| Downloader.Downloader.Open | fetch/download.go:286-291 | a fresh body starts from an empty file, a continued one from the file as it was |
| Downloader.Downloader.CopyBody | fetch/download.go:325-339 | any prefix of the body may have been appended when this stops, and only a clean end counts as none missing |
| Downloader.Downloader.RequestResume | fetch/http.go:53-113 | a range request always carries If-Range with the saved validator, a plain one never does |
| Downloader.Downloader.RestartDownload | fetch/download.go:57-64 | the validator is forgotten on disk and in memory and the attempt counts as retryable |
| Downloader.Downloader.RequestWithFallback | fetch/download.go:214-238 | a 400 answer to a range is followed by one plain request, remembered, and never by reuse of the old bytes with a new body |
| Downloader.Downloader.Unsatisfied | fetch/download.go:239-250 | a 416 answer ends in a whole file marked complete or in a restart |
| Downloader.Downloader.ReceiveBody | fetch/download.go:286-322 | an answer that is used ends in a whole version saved as complete, or in a state a retry may rely on |
| Downloader.Downloader.FetchFile | fetch/download.go:214-323 | one attempt: complete is persisted only with one whole version on disk, a retryable failure leaves what the next request relies on, and without disk faults the outcome is the function Fetched that DatesDecide is about |
| Downloader.Downloader.TryAll | fetch/download.go:153-193 | the loop makes as many attempts as are needed and allowed, which without disk faults are the attempts of DownloadAttempts, one by one |
| Downloader.Downloader.File | fetch/download.go:140-212 | without disk faults: if nothing is saved and, after fewer transient failures than attempts, the plain request gets the whole version, it is published with one request an attempt; so it is if a saved part gets the rest for its range and validator, and after any temporary failures; it is not published otherwise. With any faults: what is published is the output for one whole version; with a complete file on disk nothing is requested and the same bytes are published again; after publishing the part and the sidecar are as complete as before or gone |
| Downloader.Downloader.Reruns | fetch/download.go:140-212 | after a crash between publishing and cleaning up any number of re-runs with any faults requests nothing and leaves the published bytes as they are while both files are there; one without faults cleans up |
| Downloader.Downloader.Sessions | fetch/download.go:140-212 | over any number of processes with any faults the disk stays truthful and what is published comes from one whole version |
| Downloader.Downloader.Publish | fetch/download.go:194-207 | publishing comes before anything is removed, and an invalid artifact is never reused |
| Downloader.Downloader.RemovePartial | fetch/download.go:130-138 | the part goes first, and the sidecar is removed even if the part could not be |
| DownloadDates.RunIsIdentified | fetch/download.go:140-323 | where versions splice by date, every run against a server that compares dates leaves a state that identifies the version its bytes are of |
| DownloadDates.DatesDecide | fetch/download.go:32-55 | every such run does so if and only if any two versions with one date splice to a third one with that date |
| DownloadDates.TaggedRunIsIdentified | fetch/download.go:32-36 | with a strong entity tag in every answer no date is kept and every honest run identifies its version, whatever dates versions share |
| DownloadDates.VersionsAreMixed | fetch/http.go:68-72 | two versions with one date and no entity tag: an honest server gets the client to complete a file that is neither |
| Calendar.YearIsUnique | rollup/rollup.go:638-661 | a day lies in exactly one year of the proleptic Gregorian calendar |
| Calendar.YearStartIs | rollup/rollup.go:654-657 | a year starts 365 days a year and the leap days of the Gregorian rule after 1 January 0001 |
| Calendar.MonthLengths | rollup/rollup.go:654-657 | how long each month of each year is, and that the twelve make up the year |
| Calendar.MonthIsUnique | rollup/rollup.go:654-661 | a day lies in exactly one month |
| Calendar.WeekStartIs | rollup/rollup.go:663-670 | isoWeekStart gives the Monday of the week a day lies in |
| Calendar.NextWeek | rollup/rollup.go:638-670 | ISO week numbers (ISO 8601-1:2019 section 5.2.4) run to 52 or 53 and start again at 1 |
| Calendar.MondayIs | rollup/rollup.go:663-670 | 1 January 2024 starts a week |
| Calendar.FirstWeek | rollup/rollup.go:642-653 | the week with 4 January has number 1 (ISO 8601-1:2019) |
| Calendar.FirstWeekIs | rollup/rollup.go:642-653 | no other week has |
| Calendar.BiweekPartition | rollup/rollup.go:642-653 | two-week buckets partition the days, week 53 standing alone |
| Calendar.DayPartition | rollup/rollup.go:638-661 | the days of a bucket are exactly the days whose bucket it is, for all three kinds |
| Calendar.BucketsAre | rollup/rollup.go:638-661 | a bucket is a week from a Monday on, two weeks from the Monday of an odd week on or week 53 alone, or a month |
| Calendar.BeforeIs | rollup/rollup.go:584-594 | one instant is before another if fewer nanoseconds have passed |
| Calendar.BucketsPartitionTime | rollup/rollup.go:638-661 | every instant lies in its own bucket, and an instant lies in that interval if and only if it has the same bucket |
| Calendar.BucketsAbut | rollup/rollup.go:638-661 | a bucket is a fixed point at its start, and the buckets before and after it touch it |
| RollingDuration.ParseOfFormatted | rollup/rollup.go:384-414 | the text stored for a rolling duration of whole days reads back as the duration |
| RollingDuration.ParseIs | rollup/rollup.go:384-414 | a text is a duration if and only if it is a positive number of days or weeks that fits in 64 bits of nanoseconds, and of which length |
| RollingDuration.FormatDurationIs | rollup/rollup.go:384-414 | durations are written in weeks where they are a number of weeks, and in days otherwise |
| RollupEntries.LowerKeepsID | rollup/rollup.go:1322-1340 | letter case does not change the id in an entry's name, for every mapping of letters |
| RollupEntries.KeyNamesID | rollup/rollup.go:1322-1340 | two entries of one family with the same key have the same id |
| RollupEntries.KeyNamesBook | rollup/rollup.go:1334-1340 | two entries of one family have the same key if and only if, for fb2, they have the same id, and otherwise their names differ in letter case at most |
| RollupEntries.IDOf | rollup/rollup.go:1322-1332 | the id of a file is the number its name begins with, up to the first dot |
| RollupEntries.LeqIs | rollup/rollup.go:729-734 | entries are read by id, and those of one id by name, character by character |
| RollupEntries.OrderedIsSorted | rollup/rollup.go:729-734 | an update is read with ids ascending and names ascending among equal ids, every entry as often as it is stored |
| RollupEntries.SortedIsOwnOrder | rollup/rollup.go:729-734 | an archive that is sorted is read as it is: every order a sort may give is one the theorems cover |
| RollupEntries.OneOrder | rollup/rollup.go:729-734 | if no two different entries share id and name there is only one such order |
| RollupPass.RunAppend | rollup/rollup.go:712-848 | passes over consecutive lists of entries compose |
| RollupPass.Worker.ProcessUpdates | rollup/rollup.go:703-847 | the nested loops over archives and entries are the run the theorems below speak of |
| RollupPass.Worker.Finish | rollup/rollup.go:849-876 | nothing new: dropped; otherwise published for merging under its range |
| RollupConservation.DistinctIsExact | rollup/rollup.go:735-770 | the reference list holds each eligible key once, nothing else, and takes it from the updates |
| RollupConservation.PeriodConserves | rollup/rollup.go:703-848 | under a period policy a pass appends every eligible key exactly once, keeps what was there and finalizes nothing |
| RollupConservation.RisingConserves | rollup/rollup.go:703-848 | with rising first occurrences the same holds under the size policy across any number of finalizations |
| RollupConservation.SmallestTarget | rollup/rollup.go:801-848 | target 1 finalizes after every entry and copies exactly the ids above all before them |
| RollupConservation.RecordsAreDistinct | rollup/rollup.go:735-770 | those are first occurrences, and all of them only if first occurrences rise |
| RollupConservation.SizeConservesIff | rollup/rollup.go:703-848 | the size policy conserves every eligible key for all targets if and only if each key first shows up with an id above all ids before it |
| RollupConservation.FamilyKeysNameIDs | rollup/rollup.go:1334-1340 | entries of one family with one key have one id, which SizeConservesIff and RunDelivers rest on |
| RollupConservation.FB2IDsNameKeys | rollup/rollup.go:1334-1340 | fb2 entries with one id have one key |
| RollupConservation.AscendingRises | rollup/rollup.go:729-734 | usable ids that ascend, with one key each, first show up rising |
| RollupConservation.OrderAscends | rollup/rollup.go:703-734 | updates in id order are read with usable ids ascending |
| RollupConservation.LateLowerIDIsLost | rollup/rollup.go:748-759 | a lower id that arrives after a finalization is dropped |
| RollupConservation.SharedIDIsLost | rollup/rollup.go:748-759 | of two usr books that share the id at a finalization the second is dropped |
| RollupRanges.RunPlaced | rollup/rollup.go:788-848 | every archive finalized is named exactly min..max of its content, extended only by the range it continues, and ends above everything before it |
| RollupRanges.FinalizedRise | rollup/rollup.go:801-848 | finalized ranges of one pass are pairwise disjoint and rising |
| RollupRanges.ReopenKeeps | rollup/rollup.go:909-939 | reopening the last archive copies its usable entries and keeps its range and the budget |
| RollupRanges.ReopenDropsUnusable | rollup/rollup.go:735-747 | nothing of it is dropped if and only if all its entries are usable |
| RollupRanges.RunSized | rollup/rollup.go:801-841 | each archive is closed by the first new entry with which the appended compressed sizes reach its budget, not before |
| RollupDisk.OpsPublish | rollup/rollup.go:994-1008 | the directory after the operations holds the new archives and the old ones except the replaced one |
| RollupDisk.CrashKeepsBooks | rollup/rollup.go:994-1019 | after any prefix of the operations every book stored before is in some archive |
| RollupDisk.RunLogged | rollup/rollup.go:801-848 | the operations of a pass publish its archives in order, the first one replacing the continued one |
| RollupDisk.CloseLogged | rollup/rollup.go:849-876 | the same with the merge archive at the end |
| RollupKeys.RunSingle | rollup/rollup.go:735-848 | no archive a pass writes holds a key twice |
| RollupSound.KeysAreUnique | rollup/rollup.go:1334-1340 | in a sound directory a key is stored in one archive only, and there once |
| RollupSound.InspectSound | rollup/rollup.go:213-257 | on a sound directory the start checks succeed and find the highest final archive and the merge archive |
| RollupSound.PassesIff | rollup/rollup.go:213-257 | which directories pass the start checks: at most one merge archive, which begins where the last final one begins or beyond its end and does not end before it |
| RollupSound.BudgetIs | rollup/rollup.go:909-977 | which archive a run by size continues, with which range and budget: a merge archive counts with its size, the reopened last one does not |
| RollupSound.TwoMergesStopTheRun | rollup/rollup.go:1148-1165 | two merge archives stop the run |
| RollupSound.OpenContinues | rollup/rollup.go:909-977 | a run starts from an end at or above everything stored and holds all usable entries of what it replaces |
| RollupSound.PublicationsSound | rollup/rollup.go:788-876 | what a pass publishes is soundly named, rising and above what was stored |
| RollupSound.AfterSound | rollup/rollup.go:994-1019 | the directory after a run is sound again: names cover contents, ranges are disjoint, no key twice |
| RollupSound.SelectIs | rollup/rollup.go:1167-1255 | a book beyond the end reaches the pass if and only if an update holding it has a name whose range ends beyond the end |
| RollupRun.PassIsPassed | rollup/rollup.go:676-877 | everything the theorems need holds of the state in which the loops end |
| RollupRun.RunIsSafe | rollup/rollup.go:199-341 | under every policy a run keeps the directory sound, and cut off anywhere it has lost no book |
| RollupRun.RunDelivers | rollup/rollup.go:199-341 | afterwards every eligible key of the updates is stored in exactly one archive, once: always under a period policy, with rising first occurrences under the size policy |
| RollupRun.SelectKeepsOrder | rollup/rollup.go:1167-1255 | the updates a run selects are in id order if all are |
| RollupRun.FB2InOrderDelivers | rollup/rollup.go:199-341 | fb2 updates in id order: under every policy and across any number of finalizations each eligible key is stored in exactly one archive, once |
| RollupRun.FB2BookIsDelivered | rollup/rollup.go:199-341 | the same for a book of an update: usable, beyond the end, and in an update whose name ends beyond it |
| RollupBooks.BookIsDelivered | rollup/rollup.go:703-876 | every usable book of an update beyond the end is afterwards stored at exactly one place of one archive, under a name that, for usr, differs from its own in letter case at most: always under a period policy, and under the size policy when first occurrences rise |
| RollupBooks.FB2BookIsDelivered | rollup/rollup.go:703-876 | the same for fb2 updates in id order, under every policy |
| RollupSize.RunKeeps | rollup/rollup.go:199-341 | from a sound directory a run under the size policy succeeds, leaves it sound and loses no book |
| RollupSize.RunsKeep | rollup/rollup.go:199-341 | so does any sequence of runs with changing updates, targets and sizes |
| RollupSize.RunsDeliver | rollup/rollup.go:199-341 | over any sequence of runs a book delivered in fb2 id order stays stored in exactly one archive, once |
| RollupSize.CrashIs | rollup/rollup.go:994-1008 | under every policy and for every crash point: the directory is not sound if and only if one archive replacing another has been published and the other not yet removed, and the next run's start checks fail if and only if the other was a merge archive |
| RollupSize.TangledStays | rollup/rollup.go:213-257 | two archives that start at the same book are never put right: while the start checks pass, each run leaves two such again |
| RollupSessions.SessionsKeep | rollup/rollup.go:199-341 | over any sequence of runs under any policies, each cut off anywhere or not, every archive stays soundly named without repeated keys and no book that was ever stored is lost |
| RollupPeriods.RunsKeep | rollup/rollup.go:199-341 | over any sequence of runs under a period policy, expired periods included, the directory is sound and no book is lost |
| RollupPeriods.RunsDeliver | rollup/rollup.go:199-341 | in any order of ids a book beyond the end a run finds, in an update named beyond it, is from then on stored in exactly one archive, once |
| RollupPeriods.RunFinalizes | rollup/rollup.go:213-341 | a run that finds its period ended finalizes the merge archive with the entries it has, and a new period starts when the first new book is copied |
| RollupPeriods.RunGoesOn | rollup/rollup.go:213-341 | any other run leaves the final archives alone and keeps the period |
| RollupPeriods.CreatedIs | rollup/rollup.go:548-582 | a new period runs from the given time for the duration, or is the bucket of that time |
| RollupPeriods.AcceptedIs | rollup/rollup.go:470-528 | which saved lineages a run accepts for a merge archive |
| RollupState.CreatedIsValid | rollup/rollup.go:548-582 | a fresh lineage passes the checks of the next run |
| RollupState.DueWhenBucketIsLeft | rollup/rollup.go:584-594 | from the bucket's start on a calendar merge is due if and only if the clock is in another bucket |
| RollupState.DueAfterDuration | rollup/rollup.go:584-594 | a rolling merge is due from its start plus the configured duration on |
| RollupState.LaterByDays | rollup/rollup.go:548-582 | a deadline is whole days later at the same time of day |
| RollupState.PeriodDisk | rollup/rollup.go:849-876 | a period pass leaves the directory alone or with exactly the archive it names as merge archive |
| RollupState.AdvanceAgrees | rollup/rollup.go:849-876 | directory and state agree after a pass, and a continued lineage keeps its period |
| RollupState.FinalizedAgrees | rollup/rollup.go:607-636 | they agree after an ended merge archive is finalized and its lineage removed |
| RollupState.RunAgrees | rollup/rollup.go:199-341 | from agreement a run never fails on directory or state, restores agreement, and keeps the period unless it ended |
| RollupState.RunsAgree | rollup/rollup.go:199-341 | over any sequence of runs there is a lineage if and only if there is a merge archive, it describes that archive and the next run accepts it |
| RollupState.HistoriesAgree | rollup/rollup.go:199-341 | from an empty directory on, no further run ever fails on the directory or the state |
| RollupState.PeriodIsConstant | rollup/rollup.go:259-287 | start, deadline and bucket stay the same until the merge archive is finalized |
| RollupRunner.InspectDirectory | rollup/rollup.go:213-257 | the start checks in the order of the code, with the loops over the directory listing (1134-1165) |
| RollupRunner.CopyUpdates | rollup/rollup.go:676-877 | selecting, copying and publishing is the sequence of operations the theorems speak of |
| RollupRunner.Directory.RunOnce | rollup/rollup.go:199-341 | a whole run under the size policy is the specified step, and an error leaves the directory as it was |
| RollupRunner.Lineages.RunOnce | rollup/rollup.go:199-341 | a whole run under a period policy is the specified step on directory and state, and an error leaves both as they were |
| RollupRunner.ExpiredRunIsSafe | rollup/rollup.go:273-287 | a run that finalizes an ended period first loses no book at any crash point and leaves the directory sound |
| RollupCrash.NameMovesOn | rollup/rollup.go:849-857 | a grown merge archive never keeps its name |
| RollupCrash.CrashedRunStops | rollup/rollup.go:470-493 | cut off after any of its file operations but before the state is saved, a run is followed by one that stops with an error before it touches anything |
| RollupCrash.RenamedIsRecovered | rollup/rollup.go:264-287 | a crash between renaming an ended merge archive and clearing the state is repaired by the next run |
| Base64.RoundTrip | model/fingerprint.go:87-152 | every byte string survives unpadded base64url (RFC 4648 section 5) |
| Base64.AlphabetIs | model/fingerprint.go:87-152 | the alphabet is that of RFC 4648 section 5, in both directions |
| Base64.GroupIs | model/fingerprint.go:87-152 | every three bytes are four characters, the same number in base 256 and in base 64 |
| Base64.LastGroupIs | model/fingerprint.go:87-152 | one or two bytes at the end are two or three characters without padding |
| Varint.ReadFits | model/fingerprint.go:136-140 | what a varint reads as fits in 64 bits |
| Varint.RoundTrip | model/fingerprint.go:110-140 | a 64-bit number is read back from its varint, whatever follows, with its length |
| Varint.PutIs | model/fingerprint.go:87-152 | a number is written in groups of seven bits, the low ones first, and all bytes but the last are marked |
| Varint.ReadIs | model/fingerprint.go:87-152 | what is read is the number of the bytes up to the first unmarked one, if it is within ten bytes and 64 bits |
| Varint.ReadFails | model/fingerprint.go:87-152 | otherwise nothing is read |
| FingerprintBytes.PackRoundTrip | model/fingerprint.go:100-150 | the packed sections are read back one by one |
| FingerprintCodec.EncodeFingerprint | model/fingerprint.go:87-118 | the loop yields the packed text or the first section's error |
| FingerprintCodec.DecodeFingerprint | model/fingerprint.go:120-152 | the loop yields the sections or the first error |
| FingerprintCodec.DecodeSections | model/fingerprint.go:127-151 | the same for the raw bytes |
| FingerprintCodec.PackableIff | model/fingerprint.go:87-118 | a list is packed if and only if every key holds 16 bytes and no depth but the first is negative |
| FingerprintCodec.RoundTrip | model/fingerprint.go:87-152 | what can be packed comes back with canonical keys; only the first section loses depth and leaf flag |
| FingerprintCodec.LayoutIs | model/fingerprint.go:87-121 | the packed bytes: 16 of the first key, then for each section the varint of twice its depth, plus one for a leaf, and 16 of its key |
| FingerprintCodec.CanonicalKeyKept | model/fingerprint.go:87-118 | a key comes back unchanged if and only if it is the encoding of 16 bytes |
| FingerprintCodec.ExactRoundTrip | model/fingerprint.go:87-152 | a list comes back unchanged if and only if all keys are canonical and the first section has depth 0 and is no leaf |
| SectionTree.CompilationSectionTree | internal/inpxutil/compilation.go:162-184 | the stack loop is the specified fold, and rejects where that does |
| SectionTree.Accepts | internal/inpxutil/compilation.go:162-184 | a list is accepted if and only if it has one root in front and no section lies more than one level below the one before it |
| SectionTree.TreeLists | internal/inpxutil/compilation.go:162-184 | the tree that is built lists exactly the sections it was built from, in order |
| SectionTree.RebuildsTree | internal/inpxutil/compilation.go:162-184 | every tree is rebuilt from its preorder list |
| Histograms.AddWords | fb2/parse.go:550-556 | adding words one by one adds their counts |
| Histograms.TallyIs | fb2/parse.go:550-556 | a word counts as often as it stands in the text |
| Histograms.MergeHistogram | fb2/parse.go:580-584 | in whatever order the map is visited the result is the pointwise sum |
| RankedWords.MoveRankedWordUp | fb2/parse.go:678-682 | the in-place swaps put the last word where it belongs and keep the rest |
| RankedWords.InsertRankedWord | fb2/parse.go:664-676 | the in-place array after one more word, bounded by ten |
| RankedWords.InsertedIsTop | fb2/parse.go:664-692 | bounded insertion keeps the first ten of the full sort |
| RankedWords.TopIsUnique | fb2/parse.go:684-703 | there is only one list of first ten |
| RankedWords.TopWords | fb2/parse.go:648-662 | for every visiting order of the histogram the result is its ten first words: longer ones, as far as eight letters, before shorter ones, then more frequent before less frequent ones, then later before earlier ones in the alphabet, and no word left out comes before one that stays |
| RankedWords.FirstTenIs | fb2/parse.go:648-662 | so the words of a key are a function of the histogram alone |
| RankedWords.TopIsFirst | fb2/parse.go:648-703 | the first ten of the sort are the ten first words in that sense |
| RankedWords.FirstIsTop | fb2/parse.go:648-703 | and a list of words that is first in that sense is that one |
| BodyBuilder.KeyIsDigest | fb2/parse.go:648-662 | the key of a section is the digest of its first words one after the other, with nothing between them |
| BodyBuilder.ListedIs | fb2/parse.go:558-574 | a section is listed if it is the root or has a hundred different words |
| BodyBuilder.Builder.OnEvent | fb2/parse.go:300-340 | the dispatch on events is the step Handle, which ReadBook, StreamKeeps and TagsDecide iterate; outside of bodies only a body start counts |
| BodyBuilder.Builder.Done | fb2/parse.go:558-574 | the closing loop and the pruning loop give the list Finish that FinishedList and BookRoundTrip are about, the keys being digests of the first ten words for every visiting order of the maps |
| BodySections.ReadItems | fb2/parse.go:530-556 | reading well-nested content adds its words to the open section and appends its sections with the sums of own and descendant words |
| FingerprintEndToEnd.ReadBook | fb2/parse.go:300-340 | after a book the builder holds its root and all sections in document order |
| FingerprintEndToEnd.NothingKept | fb2/parse.go:558-584 | a section below the threshold has nothing above it below |
| FingerprintEndToEnd.ListedIsPreorder | fb2/parse.go:558-574 | the pruned list is the preorder of the tree of sections that meet the threshold |
| FingerprintEndToEnd.FinishedList | fb2/parse.go:558-574 | what the builder finishes with for a book |
| FingerprintEndToEnd.BookRoundTrip | model/fingerprint.go:87-152 | for every book the list is packed, unpacked and never rejected, and the tree rebuilt is exactly that of the sections that meet the threshold, in order |
| FingerprintEndToEnd.FingerprintRoundTrip | internal/inpxutil/compilation.go:162-184 | the same with the keys the program makes |
| FingerprintEndToEnd.EarlyEndIsRejected | fb2/parse.go:519-524 | a body end inside two open sections can give a list that is rejected |
| BodyTags.StreamKeeps | fb2/parse.go:510-556 | for every stream of events, well nested or not, that cuts no section off: depths step by one, the stack is a chain of children, closed sections have their words in their parents |
| BodyTags.TagsDecide | fb2/parse.go:510-574 | a stream of tags gives an acceptable list for all texts in it if and only if no body starts or ends while two or more sections are open |
| BodyTags.StreamRoundTrip | model/fingerprint.go:87-152 | the list of such a stream is packed and unpacked, and is the preorder of the tree built from it, but for the root's leaf flag |
| IndexRanges.Contains | internal/inpxutil/inpxutil.go:547-554 | InRanges is membership in some range |
| IndexRanges.RangesAreExact | library/metadata.go:240-246 | for rising indexes membership in the compressed ranges is membership in the list |
| IndexRanges.RangesAreShortest | library/metadata.go:240-246 | between two ranges an index is missing: there is no shorter list with the same members |
| IndexRanges.ArchiveMetadata | library/metadata.go:211-238 | an index lies in the ignored or dummy ranges if and only if its entry is of that kind, and the FB2 entries are counted |
| InpxWriter.Writer.FinishAll | mhlinpx/inpx.go:479-503 | the archives that are left are opened and finished as in the specification |
| InpxWriter.Writer.WriteStream | mhlinpx/inpx.go:265-503 | a stream without an error has gone through a trace of the specification |
| InpxWriter.TargetIs | mhlinpx/inpx.go:296-315 | a record of an archive entry goes to its index in the archive it names, any other behind the entries and the appended records of the online archive, or nowhere |
| InpxWriter.EntriesAre | mhlinpx/inpx.go:296-305 | appended records count for the online archive only |
| InpxLayout.TraceSteady | mhlinpx/inpx.go:265-467 | all along a stream the rows shown are those of the layout up to the index |
| InpxLayout.WritesLayout | mhlinpx/inpx.go:265-503 | whatever stream is taken without an error, each archive with an accepted record gets one member with one row for each index that is not ignored, in order, and the others get none |
| InpxLayout.RowsArePositional | mhlinpx/inpx.go:368-429 | the row of an index stands after those of the smaller ones, and there are as many rows as indexes that are not ignored |
| InpxLayout.RowIs | mhlinpx/inpx.go:368-429 | the row of an index is the line of the first record placed there if it renders to one, and otherwise a dummy with the number of the entry |
| InpxLayout.StatisticsBalance | mhlinpx/inpx.go:384-467 | files are the rows of all members and split into records and dummies, records into those with and without database metadata, archives are members |
| InpxCounts.CountsAre | mhlinpx/inpx.go:405-420 | the two record counts are those of the written lines with and without database metadata |
| InpxOrder.ValidateArchives | jsonl/stream.go:437-457 | the archives of a header are accepted if and only if ids are non-empty and distinct and ordinals are positions |
| InpxOrder.ValidateHeader | jsonl/stream.go:428-489 | a header is accepted if and only if schemas, record count, archives and declared ordering are what they have to be |
| InpxOrder.OrderValidator.ValidateAll | jsonl/stream.go:353-426 | a stream is accepted if and only if it is in the order its header declares: by archive entry, by database book id, or none |
| InpxOrder.EntryOrderIs | jsonl/stream.go:366-397 | accepted as ordered by archive entry are the streams whose records all name a declared archive and an index and do not go back |
| InpxOrder.BookOrderIs | jsonl/stream.go:399-426 | accepted as ordered by book are those whose records all name a book of the declared source and whose ids do not descend |
| InpxOrder.DeclaredOrderIs | jsonl/stream.go:353-364 | the declared mode decides which; without one all streams are accepted, and with an unknown one only the empty stream |
| InpxOrder.Ordered | jsonl/stream.go:366-397 | the order by archive entry is transitive along an accepted stream |
| InpxStreams.PlaceSucceeds | mhlinpx/inpx.go:265-294 | a record in order is placed if and only if its index is beyond the last one written |
| InpxStreams.WrittenIff | mhlinpx/inpx.go:265-336 | an accepted stream never meets the writer's order errors if and only if its kept records have indexes from 0 and no two share a locator |
| InpxLoader.Loader.AddDatasetRecord | internal/inpxutil/inpxutil.go:371-394 | the map-based loader: the first record at an index stays |
| InpxLoader.SameLookup | internal/inpxutil/inpxutil.go:346-394 | loader and stream find the same kept record at every index |
| InpxLoader.StreamAgreesWithMaps | internal/inpxutil/inpxutil.go:346-394 | a stream without repeated locators and negative indexes is written, with the layout of the maps if and only if no accepted archive has an index that counts between its entries and its last record |
| InpxBooks.OrderedAreBooks | jsonl/stream.go:399-426 | what is accepted as ordered by book id has no record of an archive entry |
| InpxBooks.BooksWrittenIff | mhlinpx/inpx.go:265-336 | a stream of books never meets the writer's order errors if and only if no record is kept or the online archive claims no negative number of entries |
| InpxBooks.BooksAgreeWithMaps | internal/inpxutil/inpxutil.go:371-394 | its members are those laid out from the loader's maps if all records are kept or none, and only then unless indexes behind the online archive's entries are ignored |
| AuthorKeys.CleansedIsClean | internal/inpxutil/inpxutil.go:569-577 | cleansed components have single inner spaces and none of the separators |
| AuthorKeys.CleanIsKept | internal/inpxutil/inpxutil.go:569-577 | clean text is a fixed point |
| AuthorKeys.LettersAreKept | internal/inpxutil/inpxutil.go:569-577 | cleansing keeps everything but blanks and separators, in order, unless the text is broken |
| AuthorKeys.CleanseJoin | internal/inpxutil/inpxutil.go:556-558 | the replacer works on every piece by itself, unless it is cut inside a carriage return and line feed |
| AuthorKeys.CleanseTable | internal/inpxutil/inpxutil.go:556-558 | what it does with single characters and with that pair |
| AuthorKeys.TrimParts | internal/inpxutil/inpxutil.go:574 | blanks, commas and colons are cut off on both sides, all of them and nothing else |
| Spaces.SqueezeKeepsWords | internal/inpxutil/inpxutil.go:570 | squeezing keeps the words of a text |
| AuthorKeys.KeyParts | internal/inpxutil/author_disambiguation.go:310-329 | the three parts of a key can be told apart |
| AuthorKeys.EqualKeys | internal/inpxutil/author_disambiguation.go:310-329 | equal keys have equal suffixed components |
| AuthorSuffixes.AuthorDisambiguator.SelectSuffix | internal/inpxutil/author_disambiguation.go:276-304 | the first candidate that does not collide, else the id |
| AuthorSuffixes.AuthorDisambiguator.Build | internal/inpxutil/author_disambiguation.go:146-207 | reading the groups from the metadata and the loops over them give the fold KeysAreDistinct and NicknamesDecide are about, nicknames being counted over a whole group first |
| AuthorSuffixes.IdIsWritten | internal/inpxutil/author_disambiguation.go:46-60 | the ids of the model are exactly the texts of positive 64-bit numbers the collector writes |
| AuthorSuffixes.IdKeyIsOwn | internal/inpxutil/author_disambiguation.go:276-340 | the key with the bare id belongs to no other id, whatever the names and suffixes |
| AuthorSuffixes.SelectIsFree | internal/inpxutil/author_disambiguation.go:276-297 | the chosen suffix gives a key no other id has; the unchecked fallback never decides |
| AuthorSuffixes.SelectIs | internal/inpxutil/author_disambiguation.go:276-304 | the suffix is the nickname if nobody else in the group has it, or else the id, and the nickname with the id if that key has been given away |
| AuthorSuffixes.KeysAreDistinct | internal/inpxutil/author_disambiguation.go:146-207 | over all groups and for each field, authors with different ids get suffixes that render to different keys, if nicknames are safe |
| AuthorSuffixes.EveryoneIsNamed | internal/inpxutil/author_disambiguation.go:172-183 | every author with an id gets a suffix |
| AuthorNicknames.LabelAsNickname | internal/inpxutil/author_disambiguation.go:276-304 | an author nicknamed like the mark of another id shares that author's suffix |
| AuthorNicknames.NicknamesDecide | internal/inpxutil/author_disambiguation.go:146-340 | for each field: all authors with nicknames from a set are told apart, in every population and every order a hand may list it in, if and only if no nickname, once cleansed, is the mark of an id or ends in one behind a space and a bracket |
| FilenameIndex.DatabaseIndex.AddAll | cmd/metabib/main.go:1053-1095 | the loop over all claims is the fold IndexIsSound and OrderMattersIff are about |
| FilenameIndex.IndexIsSound | cmd/metabib/main.go:1097-1129 | after any claims a name stands for a book only if that book strictly outranks every other claimant; ambiguous names have a tie behind them; no name is both, no claimed name is neither |
| FilenameIndex.AmbiguousForever | cmd/metabib/main.go:1097-1129 | an ambiguous name stays ambiguous |
| FilenameIndex.BestWithoutTies | cmd/metabib/main.go:1097-1149 | without ties the answer is the best claimant, in any order |
| FilenameIndex.PreferredIs | cmd/metabib/main.go:1131-1149 | an active book is preferred to a deleted one whatever is joined, and among equals one with a joined resolution to one without |
| FilenameIndex.MarksAre | cmd/metabib/main.go:1151-1175 | which deletion marks and which joined books count |
| FilenameIndex.OrderMatters | cmd/metabib/main.go:1097-1129 | two orders of the same three claims with different answers |
| FilenameIndex.OrderMattersIff | cmd/metabib/main.go:1097-1149 | all orders of the claims give the same answer if and only if no two claimants tie below a best one |
| SqlFixup.WriteImportFixup | db/importer.go:282-319 | the fixed lines concatenated, or what fits of them if and only if the sink has room for less; a read error is reported after what came before it |
| SqlFixup.SqlFixupReader.Fetch | db/importer.go:265-280 | ends across any run of deleted lines and loses nothing |
| SqlFixup.SqlFixupReader.Read | db/importer.go:265-280 | hands out the next bytes of the fixed dump, and the end only when nothing is left |
| SqlFixup.SqlFixupReader.ReadFully | db/importer.go:265-280 | for every sequence of buffer sizes the pieces concatenate to the fixed dump |
| SqlFixup.ReadMatchesWrite | db/importer.go:252-319 | reading and writing give the same bytes |
| SqlFixup.IdentityIff | db/importer.go:321-330 | outside alias dumps the filter is the identity if and only if no line is deleted |
| SqlFixup.AlterIsDeleted | db/importer.go:321-330 | ALTER DATABASE statements are deleted in any letter case and with any indent |
| SqlFixup.ColumnIsDoubled | db/importer.go:332-338 | in an alias dump the id column is followed by the dummy column, with the same indent |
| SqlFixup.InsertIsNamed | db/importer.go:339-342 | in an alias dump the insert names its three columns |
| SqlFixup.OthersStay | db/importer.go:321-344 | any other line stays as it is |

## Left out

- `library/process.go`: two sinks, the record stream and the manifest, are one sink here; progress, timing and logging are not modelled, and what a worker computes for a batch is an arbitrary function of the batch.
- `library/process.go`: `processArchive` differs from `ProcessDatabase` in what a batch is; the protocol is modelled once for both.
- `fetch/download.go` without `--continue`: the hidden temporary file that is always fetched afresh. Destination names, redirects, timeouts and the delay between attempts are not part of this model.
- `fetch/download.go`: the server is taken not to lie: headers it sends are those of the version it sends, a part it sends for a validator is of a version with that validator or says otherwise, and a body of unknown length that ends without an error is complete.
- `fetch/download.go`: writes reach the disk in program order; reordering by the file system when power fails is not modelled.
- `rollup/rollup.go`: archive names are ranges, so patterns, digit width and the directory walk are left out; updates are given with the range in their names.
- `rollup/rollup.go`: book ids are mathematical integers where they are compared by subtraction; within 64 bits the two differ only when the difference overflows. Entries of an update that share id and name may be read in any order: the theorems hold for content listed in any way.
- `rollup/rollup.go`: ZIP reading and writing, CRC checks and the JSON of the state file; a failure there or a cancellation ends a run between two file operations, which is a crash point of the model. The state file's entry of the other family is not touched and not modelled.
- `fb2/parse.go`: splitting text into words (`addNormalizedWords` and what it calls); a text is given by its words. XML and character sets, too: the model starts from start tags, end tags and texts.
- FingerprintEndToEnd.BookRoundTrip: nesting is bounded by the largest int, a bound the parser's limit on XML depth stays far below.
- `internal/inpxutil/compilation.go`: part numbering and the collector; tree nodes on the stack join their parents when the stack is cut, where the program appends a pointer when the node is created.
- `mhlinpx/inpx.go`: the rendering of lines, the ZIP container, member names and compression; write errors of the container.
- `jsonl/stream.go`: the references inside a record, and reading and writing JSON.
- AuthorNicknames.NicknamesDecide: tight for metadata in any order; the collector lists ids sorted and does not write all the orders its second half uses.
- InpxBooks.BooksAgreeWithMaps: the layout from the maps is the model's own side here, too.
- InpxLoader.StreamAgreesWithMaps: the layout built from the loader's maps (MapLayout) is this model's own side of the comparison; the program stops at the maps.
- `library/metadata.go`: how an entry is recognised as a book, a backup or something else.
- `internal/inpxutil/author_disambiguation.go`: collecting authors from database rows; the groups are given.
- AuthorSuffixes.KeysAreDistinct: ids are decimal, as the collector writes them; other ids in hand-written metadata are not covered.
- `cmd/metabib/main.go`: which file names a record offers; the claims are given in the order of insertion.
- `db/importer.go`: text is a sequence of characters, where the program's buffers may split the bytes of one. Upper-casing covers the letters whose capital is an ASCII letter.
- Network transport, MariaDB, repository queries, configuration, command line, logging, BBCode, language resolution, templates, nested volumes and claim mapping: wide but shallow, or calls into code that is not part of this model.
