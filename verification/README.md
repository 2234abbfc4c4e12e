# Squid monitor backend: a verified model

This project models the ingest-to-record core of the backend and proves what
the product relies on: numbers that reconcile, and nothing lost without a
trace.  It covers one log line becoming an event (`LogParser`, `Renderings`,
`CivilTime`), a tailer following a growing and rotating file (`LogTailer`,
`TailerRuns`, `RaisingLines`), the bounded buffer and the periodic flush with its persisted
read position (`EventStore`, `Aggregator`, `Pipeline`), the ten aggregate
tables kept by "insert or add" (`Tables`, `DbUpsert`, `LabelLists`,
`Aggregates`, `ProxyColumn`), every one of their rows and columns as a plain sum
over the events (`DirectSums`), how the tables agree (`Reconciliation`), the
windows that their columns take (`Columns`, `ColumnSums`), what those tables hold in every state of a pipeline run
(`Ledger`), the hourly rollup and the query over minute and hour rows
(`Rollup`, `HourlyProxies`), and the kernels beside it: response-time
percentiles (`ResponseTime`), the denials page (`Denials`), the Blocked page's filters
(`BlockFilters`), the audit hash chain (`AuditChain`), the login throttle
(`LoginThrottle`), archive and purge (`Archive`) and the streamed export
(`Export`).

Objects that change in place are classes whose methods are proved against
specification functions (`LogTailer`, `RingBuffer`, `Aggregator`,
`ClientTables`, `LoginThrottle`, `AuditLog`, the archive `Database`); loops of
the source are loops with invariants.  Behaviour over whole runs is stated
about state machines made of those specification functions: `TailerRuns` for
writes, polls, rotations and truncations; `Pipeline` for writes, polls, the two halves of a
flush, failed commits, failed checkpoint writes, stops and crashes; `Rollup`
for flushes and rollups; `LoginThrottle` for attempts and failures;
`Archive` for ingest, archive and purge; `AuditChain` for writes of
concurrent transactions.

Timestamps are integer microseconds in the database and integer milliseconds
in log lines.  Clocks, the hash, the IP-address and URL libraries, the domain
categories, and which commits and checkpoint writes succeed are parameters.

## Where the code does less than its documentation says

- `backend/app/services/log_tailer.py:42-52` says the persisted offset only
  ever vouches for durable events.  A commit's checkpoint also passes events
  dispatched while the flush was running: exactly the ids in
  `(last flushed, latest at the checkpoint]` (`Pipeline.Conservation`), none if
  and only if nothing was dispatched meanwhile (`Pipeline.DebtFreeIffQuiet`).
  A stopping tailer writes its position before the final flush
  (`backend/app/main.py:205-206`), so it passes whatever is still waiting, and
  nothing if and only if all dispatched events are flushed
  (`Pipeline.StopDebtFreeIffFlushed`).  A crash before the next flush loses
  such events (`Pipeline.PollInsideFlushLoses`,
  `Pipeline.FailedFinalFlushLoses`).  Without a poll inside a flush, and with
  every stop followed by its flush, the claim holds over every run
  (`Pipeline.CrashSafety`), and a final flush that goes through pays the debt
  (`Pipeline.FinalFlushSettles`).
- `backend/app/main.py:195-199` calls re-reading after a restart harmless
  because the upsert is idempotent.  Adding is not: an event committed past the
  persisted position is counted twice (`Pipeline.RereadCountsTwice`).  A commit
  leaves such events exactly if its checkpoint cannot be written and no earlier
  one passed its batch (`Pipeline.AheadIffUnwritten`); over every run whose
  commits all write their checkpoint nothing is counted twice, however often
  the process dies (`Pipeline.NothingRecounted`).
- `backend/app/services/log_parser.py:54-63` and `:114-120` promise that no
  line can yield a row the database refuses.  The status is clamped to 64 bits
  and its columns have 32, and the client address is not truncated to its 45
  characters (`backend/app/models/raw_event.py:48-51`,
  `backend/app/models/ops_aggregate.py:69`).  An event's own row fits exactly if
  those two do (`LogParser.ParsedFitsIff`, `Renderings.RecordFitsIff`); a status
  of 2^31 does not (`Renderings.LargeStatusDoesNotFit`).  And rows that fit can
  add up to one that does not: a byte count of 2^63 - 1 and one more byte in the
  same minute (`Ledger.HugeSizesAreRefused`), or four proxies with long names
  (`Columns.FourProxiesOverflow`).  A flush is taken if and only if every
  event's row, every resulting total and every written proxy list fits
  (`Columns.TakenIff`); of the totals those of each event's minute and branch,
  and the refusals of its hour, decide (`ColumnSums.TakenIffSumsFit`).  The upserts run outside the savepoint that protects the
  raw rows, so from then on nothing is committed until the buffer has evicted
  the event (`Ledger.OversizedStalls`) or the oldest one of the refused window
  (`Ledger.RefusedStalls`).
- `backend/app/services/log_parser.py:34-36` says a line never raises.  Behind
  an existing date, time and zone a fraction of over 4300 digits does, and
  nothing else there (`Renderings.RaisesIffLongFraction`).  The poll that meets
  such a line dispatches nothing, and no later one of that file gets past it
  (`RaisingLines.FirstPollIsLost`, `RaisingLines.BlockedForGood`).
- `backend/app/services/log_parser.py:152-155` allows brackets for an IPv6
  literal.  A tunnel to one has no domain, because the host pattern must start
  with a letter or digit (`LogParser.BracketedHostHasNoDomain`).
- A file truncated in place is noticed only when it is shorter than what was
  read (`LogTailer.TruncationNoticedIffShorter`).  Then all its new lines are
  emitted (`TailerRuns.NoticedTruncationLosesNothingNew`); otherwise some can be
  lost (`TailerRuns.UnnoticedTruncationLoses`).  After several rotations between
  polls the output is complete if and only if the files that were skipped had
  no lines (`TailerRuns.CompleteIffNothingSkipped`).
- `backend/app/services/client_service.py:37-43` says minute and hourly rows
  never overlap.  The cutoff is not aligned to hours, so an ordinary rollup
  splits one (`Rollup.UnalignedCutoffOverlaps`), and a late event reopens an
  hour that is already rolled up (`Rollup.LateEventOverlaps`).  Those are the
  only two ways (`Rollup.StepDisjointIff`); with aligned cutoffs and no late
  events the promise holds (`Rollup.TidyRunsAreDisjoint`).  Each event is in one
  row only in any case (`Rollup.EachEventInOneRow`).
- `backend/app/services/client_service.py:61-65` says a boundary never drops real
  traffic.  That holds from the first whole minute of the range on
  (`Rollup.QueryBounds`); an event before it is missed, while it is in a minute
  row, exactly because its minute began before the range
  (`Rollup.PartialMinuteIsMissed`).
- `backend/app/services/db_upsert.py:127-130` says the stored label list is
  bounded by the number of distinct labels.  An append keeps a list free of
  duplicates exactly if one list is a run of the other or they share no label
  (`LabelLists.DuplicateFreeIff`; `LabelLists.OverlapDuplicates`).  An append
  that does not fit is cut, perhaps in the middle of a label (`LabelLists.CutAppend`),
  which can store a label nobody wrote (`LabelLists.CutInventsLabel`); a full
  column drops every new one (`LabelLists.FullColumnDropsLabels`).
- `backend/app/services/block_filters.py:10-11` says a CIDR works on the text
  column.  For lengths 25 to 31 the expansion matches no address at all
  (`BlockFilters.ExpansionEmpty`); the equivalence holds up to /24 and, through
  the exact list, for /32 (`BlockFilters.ParseClients`).
- The audit log verifies exactly when each write is later in
  `(created_at, id)` than the one committed before it and was made in sight of
  it (`AuditChain.VerifiesIffSerial`); two honest writes with one clock reading
  and descending ids are reported as tampering.
- `backend/app/core/security.py:319-323` allows one attempt per interval once an
  account is throttled.  Attempts that overlap are all granted before any of
  them fails (`LoginThrottle.OverlappingAttemptsOverfill`).  A history keeps the
  spacing exactly if each failure would have been allowed at the moment it was
  recorded (`LoginThrottle.SpacedIffEachAllowed`), and is then within the bound
  (`LoginThrottle.AllowedHistoriesAreBounded`).
- Retention warns about branches whose archives end too early.  Without a
  warning for its branch a purged row was saved by its archive exactly if it is
  not older than the branch's first window and was committed before that
  archive (`Archive.PurgedWereArchived`); a late row, an older one and one of a
  branch that is not configured can be purged unarchived and unwarned
  (`Archive.LateRowCanVanish`, `Archive.OldRowCanVanish`,
  `Archive.UnconfiguredBranchCanVanish`).  Files are named by dates
  (`backend/app/services/archive_service.py:141`), so a second archive on the
  same dates replaces the first one's file, rows before its own start included
  (`Archive.OverwrittenRowCanVanish`).  A row is in a file on disk if and only
  if the first archive that could save it, and every later one of that name,
  starts in time and ran before the purge (`Archive.KeptIff`).

## Model

| member | source | states |
|---|---|---|
| Renderings.ThreeRenderings | backend/app/services/log_parser.py:1-36 | every record of regular fields reads back as the same event from the native line, from the two-size line (plus the bytes received) and from the alternate-clock line of any zone offset under a day |
| Renderings.AltIsNative | backend/app/services/log_parser.py:271-299 | normalising the alternate line gives the native line character for character: epoch time and user/hierarchy order |
| Renderings.ClockRead | backend/app/services/log_parser.py:229-234 | every clock the expression accepts -- a day of one digit or two, any blanks, any zone, with or without a fraction -- is read off its line exactly as written, and the rest is left |
| Renderings.ClockOfMs | backend/app/services/log_parser.py:245-268 | the epoch value of a written clock with milliseconds is the instant its date, time and zone name |
| Renderings.FractionIsNearest | backend/app/services/log_parser.py:265-268 | a fraction of any length is rounded to the nearest millisecond, and to the even one of two equally near |
| Renderings.RaisesIffLongFraction | backend/app/services/log_parser.py:265-267 | a line with such a clock makes the parser raise if and only if its date, time and zone exist and its fraction has over 4300 digits |
| Renderings.TwoSizeReads | backend/app/services/log_parser.py:308-332 | the column before the reply size becomes the bytes received and every other field stays as on the native line |
| Renderings.NativeTokens | backend/app/services/log_parser.py:334-359 | a content type with blanks is put back together, whatever number of words it has |
| Renderings.TokensRead | backend/app/services/log_parser.py:361-445 | the ten fields become the record's event, or none for a time outside years 1 to 9999 or an invalid client address |
| Renderings.FieldsRead | backend/app/services/log_parser.py:361-445 | in all three formats a regular record of a real time and address yields one event with every field as stated: texts cut to their columns, a lone dash as no value, numbers as read, blocked exactly for a denied tag, 403 or 407 |
| Renderings.NativeRejected | backend/app/services/log_parser.py:374-385 | a record outside years 1 to 9999, or whose client is no address, yields no event |
| Renderings.OddLines | backend/app/services/log_parser.py:334-359 | a native line of under ten words yields no event; one of more has its words from the tenth on joined if its fourth has a slash and its ninth has one or is a dash, and yields no event otherwise |
| Renderings.ShortClockLine | backend/app/services/log_parser.py:287-293 | under the alternate clock fewer than nine words yield no event |
| Renderings.DocumentedClock | backend/app/services/log_parser.py:12-24 | the documented clock "03/Sep/2026:15:22:46 +0500.112" is read as 1788430966.112 seconds |
| Renderings.MonthInAnyCase | backend/app/services/log_parser.py:246-248 | each month's abbreviation is understood in any mix of cases |
| LogParser.ParsedIsSanitized | backend/app/services/log_parser.py:302-445 | for every line: no number over 64 bits, the truncated texts within their columns, no user is the empty text, and blocked is exactly "denied tag, 403 or 407" |
| LogParser.ParsedFitsIff | backend/app/models/raw_event.py:46-67 | for every line: the event's own row fits its columns if and only if its status is a 32-bit number, its address has at most 45 characters, and the configured branch and proxy fit |
| Renderings.RecordFitsIff | backend/app/models/raw_event.py:46-67 | the same for a written record's own row, from its status token and client text |
| Renderings.LargeStatusDoesNotFit | backend/app/models/ops_aggregate.py:69-69 | an otherwise ordinary line with a status of 2^31 or more yields an event that fits no status column |
| LogParser.ParseInt | backend/app/services/log_parser.py:131-149 | every token yields a number from 0 to 2^63-1 |
| LogParser.ExtractDomain | backend/app/services/log_parser.py:159-190 | a reported domain looks like a host name; it is what the library reads off a URL with a scheme, and otherwise, or for a tunnel, how the URL starts |
| LogParser.UrlYieldsHost | backend/app/services/log_parser.py:176-190 | for every URL with a scheme and every verb but CONNECT: the host the library reads off it, exactly if that looks like one, and no domain where the library gives none |
| LogParser.BareYieldsHost | backend/app/services/log_parser.py:173-175 | without a scheme, under any verb, "host:port" yields the host exactly if it looks like one |
| LogParser.ColonlessYieldsItself | backend/app/services/log_parser.py:173-175 | a URL without a colon yields itself, under any verb, exactly if it looks like a host |
| LogParser.HostsJoin | backend/app/services/log_parser.py:152-166 | what looks like a host: letters and digits do, hosts side by side or joined by a dot, hyphen, underscore, colon or bracket do; no text that starts with one of these, ends with one but the closing bracket, or contains anything else |
| Renderings.DomainRead | backend/app/services/log_parser.py:169-190 | the domain column of every regular native line: the library's host for a URL with a scheme, the text before the port for a tunnel or a scheme-less "host:port", the URL itself without a colon, each cut to 255 characters, and none where it does not look like a host |
| LogParser.WrittenNumbersReadBack | backend/app/services/log_parser.py:131-149 | a decimal number reads back as itself, a too large one as the largest that fits, one of over 4300 digits and a negative one as zero |
| LogParser.GroupedNumbersReadBack | backend/app/services/log_parser.py:131-149 | digit groups joined by single underscores read as one number, with or without a plus sign; with a minus sign they read as zero |
| LogParser.OtherTextIsZero | backend/app/services/log_parser.py:131-149 | any other character behind the sign makes the token read as zero |
| LogParser.ConnectYieldsHost | backend/app/services/log_parser.py:169-190 | a tunnel's host and port yield the text before the port exactly if it looks like a host, and no domain otherwise |
| LogParser.BracketedHostHasNoDomain | backend/app/services/log_parser.py:152-166 | a tunnel to a bracketed IPv6 literal has no domain |
| CivilTime.NextDay | backend/app/services/log_parser.py:252-264 | consecutive calendar days have consecutive day numbers, over month ends, leap days and centuries |
| CivilTime.DateOfOrdinal | backend/app/services/log_parser.py:252-264 | the number of a day is how many days one counts from the first to reach it |
| CivilTime.ReadingRoundTrip | backend/app/services/log_parser.py:245-268 | what a clock shows in any zone at any instant of years 1 to 9999 names that instant again |
| CivilTime.ReadingOfInstant | backend/app/services/log_parser.py:252-264 | no two clock readings of one zone name the same instant |
| CivilTime.EpochReading | backend/app/services/log_parser.py:264-264 | instant 0 is midnight of 1 January 1970, UTC |
| LogTailer.ReadEventsConcat | backend/app/services/log_tailer.py:386-414 | reading a text in two pieces with the partial line carried over emits the same events as reading it at once |
| LogTailer.EventsRead | backend/app/services/log_tailer.py:397-414 | the events of a text are, in order and once each, what its non-blank terminated lines parse to where the client is not excluded, and nothing else |
| LogTailer.EveryLineIsRead | backend/app/services/log_tailer.py:397-414 | with nothing excluded and every line readable there is one event per terminated line, the i-th being the parse of the i-th line |
| PyText.LinesAndTail | backend/app/services/log_tailer.py:397-399 | the terminated lines with their newlines and a tail without one make up the text, and nothing else does |
| LogTailer.LogTailer.PollOnce | backend/app/services/log_tailer.py:218-272 | one poll hands the specified events to the buffer in order, up to the one whose delivery raises, and leaves the position after all it has read |
| RaisingLines.FirstPollIsLost | backend/app/services/log_tailer.py:227-238 | a poll in which a line makes the parser raise dispatches none of its events, and no later one does while the position stays |
| RaisingLines.BlockedForGood | backend/app/services/log_tailer.py:227-238 | with such a line behind the persisted position, any number of writes and polls dispatches nothing |
| LogTailer.LogTailer.PollOnceSync | backend/app/services/log_tailer.py:274-311 | the events and the new state of a poll: open, rotation, truncation, read, in that order |
| LogTailer.RestartReads | backend/app/services/log_tailer.py:313-361 | the first poll of a process completes the file from a persisted position that marks it, reads the whole file after a position in another file or past the end, and without a position only what follows |
| LogTailer.TruncationNoticedIffShorter | backend/app/services/log_tailer.py:380-384 | a poll starts over exactly when the file is shorter than the offset; otherwise it reads only what lies beyond the offset, glued to the old tail |
| LogTailer.LogTailer.HandleCreateRotation | backend/app/services/log_tailer.py:369-378 | the old file is drained before the new one is opened at its start |
| LogTailer.LogTailer.FlushCompleteLines | backend/app/services/log_tailer.py:397-414 | the finished lines of the buffered text become the events that `EventsRead` describes, the unterminated tail stays, and the three counters grow by the lines that are not blank, that parse and that are excluded |
| LogTailer.LogTailer.Checkpoint | backend/app/services/log_tailer.py:442-463 | what is written to disk is the last snapshot, or nothing when the write fails |
| TailerRuns.ExactlyOnce | backend/app/services/log_tailer.py:274-414 | over every run of writes, polls and rename rotations, after one more poll the events are the parses of all terminated lines of all files, in order, once each |
| TailerRuns.PollCatchesUp | backend/app/services/log_tailer.py:274-311 | from every reachable state a single poll brings the tailer up to date |
| TailerRuns.NoticedTruncationLosesNothingNew | backend/app/services/log_tailer.py:301-311 | from every reachable state and over every further run, a truncation the next poll notices loses no line of the new content or of later files |
| TailerRuns.UnnoticedTruncationLoses | backend/app/services/log_tailer.py:307-308 | a file rewritten to the length already read emits nothing, however often it is polled |
| TailerRuns.CompleteIffNothingSkipped | backend/app/services/log_tailer.py:303-311 | from every reachable state, after any writes and rotations, the next poll leaves everything emitted if and only if the files between the open and the current one have no events |
| TailerRuns.MiddleFileIsSkipped | backend/app/services/log_tailer.py:369-378 | with two rotations between polls nothing of the middle file is emitted, whatever it holds |
| EventStore.RingBuffer.Append | backend/app/services/event_store.py:29-33 | the next id is assigned and only the oldest entry makes room |
| EventStore.RingBuffer.EventsSince | backend/app/services/event_store.py:67-75 | the backwards scan returns the entries above the mark in buffer order |
| EventStore.SinceIsExact | backend/app/services/event_store.py:67-75 | exactly the retained ids above the mark, ascending, ending at the latest id |
| EventStore.LikelyLostIffEvicted | backend/app/services/aggregator.py:231-250 | the overflow warning holds if and only if some unflushed id has been evicted |
| Pipeline.Conservation | backend/app/services/aggregator.py:303-378 | over every run with polls inside flushes, failures and crashes: events passed by the persisted position plus double counts equal committed, evicted and lost ones plus the ids in (flushed, latest at the checkpoint] |
| Pipeline.CrashSafety | backend/app/services/log_tailer.py:260-272 | with no poll inside a flush and no stopped process that ends before its final flush, everything before the persisted offset is committed or was evicted, and the persisted partial line is that text's unterminated tail |
| Pipeline.DebtFreeIffQuiet | backend/app/services/aggregator.py:303-378 | the checkpoint of a commit has passed only flushed events if and only if nothing was dispatched during the flush |
| Pipeline.StopDebtFreeIffFlushed | backend/app/services/log_tailer.py:188-201 | the checkpoint of a stopping tailer has passed only flushed events if and only if none was waiting |
| Pipeline.FinalFlushSettles | backend/app/main.py:205-206 | from every reachable state a flush that commits leaves every dispatched event flushed and no debt |
| Pipeline.FailedFinalFlushLoses | backend/app/services/aggregator.py:263-278 | a shutdown whose final flush fails loses what was waiting |
| Pipeline.RereadCountsTwice | backend/app/main.py:195-199 | a run in which an event re-read after a crash is committed a second time |
| Pipeline.AheadIffUnwritten | backend/app/services/aggregator.py:376-378 | a commit leaves something for a restart to count again if and only if its checkpoint is not written and no earlier one passed the whole batch |
| Pipeline.NothingRecounted | backend/app/main.py:195-199 | over every run whose commits all write their checkpoint no event is counted twice, crashes and failed flushes included |
| Pipeline.CatchUp | backend/app/services/aggregator.py:303-378 | from every reachable state a poll and a successful flush settle every event of the log and empty the debt |
| Pipeline.LosesIffWarned | backend/app/services/aggregator.py:243-250 | a successful flush leaves evicted events behind exactly when the overflow warning holds |
| Pipeline.CommittedOnceInOrder | backend/app/services/aggregator.py:303-376 | without a crash or overflow the committed events are the first ones of the log up to the flushed id, once each and in order, however flushes fail |
| Pipeline.PollInsideFlushLoses | backend/app/services/log_tailer.py:42-52 | a run in which an event passed by the checkpoint is never committed |
| Pipeline.StepKeeps | backend/app/main.py:85-99 | every step, flush halves, stop and crash included, keeps the invariant that ties file, buffer, checkpoint and commits together |
| Tables.UpsertIsMerge | backend/app/services/db_upsert.py:97-156 | inserting or adding a listing of rows one by one, in any order, adds the whole table at once |
| Tables.MergeGroups | backend/app/services/aggregator.py:439-596 | grouping two sequences apart and merging the groups is grouping them together |
| Tables.TotalOfGroups | backend/app/services/aggregator.py:439-596 | totals over any selection of groups are direct sums over the items |
| DbUpsert.ChunkRows | backend/app/services/db_upsert.py:71-86 | the batches hold the rows in order, none is empty and none binds more variables than allowed, as soon as a single row does not |
| DbUpsert.BatchIsLargest | backend/app/services/db_upsert.py:71-86 | all batches but the last hold the largest number of rows a statement can bind, or one row if not even one fits |
| DbUpsert.BulkUpsertSum | backend/app/services/db_upsert.py:97-156 | however the rows are cut into statements the table ends as if they were written one by one, or unchanged exactly if one of them does not fit its columns |
| LabelLists.MergeCsvIsUnion | backend/app/services/db_upsert.py:89-94 | the labels of the merged text are exactly the labels of its parts |
| LabelLists.SortedAscends | backend/app/services/db_upsert.py:89-94 | the labels are written in ascending order, each once |
| LabelLists.CodePointOrder | backend/app/services/db_upsert.py:89-94 | that order is by code points: a text before its continuations, the smaller character first where two differ |
| LabelLists.SearchIsRun | backend/app/services/db_upsert.py:143-154 | the comma-wrapped substring search decides whether one list is a contiguous run of the other |
| LabelLists.CaseMergeKeeps | backend/app/services/db_upsert.py:143-154 | where nothing is cut off, one upsert keeps both lists as runs, their union as labels, and changes nothing for a list already contained |
| LabelLists.UpsertsKeepEveryList | backend/app/services/db_upsert.py:143-154 | after any sequence of upserts that cuts nothing off -- repeats of lists already contained, however long, included -- every list seen is a contiguous run and the labels are the union of all seen |
| LabelLists.StoredReadsBack | backend/app/services/client_service.py:191-193 | the stored text reads back as that union, and writing any earlier list again is a no-op |
| LabelLists.DuplicateFreeIff | backend/app/services/db_upsert.py:143-154 | where nothing is cut off, two duplicate-free lists give a duplicate-free one if and only if one is a run of the other or they share no label |
| LabelLists.OverlapDuplicates | backend/app/services/db_upsert.py:143-154 | "a,b" then "b,c" stores the label b twice |
| LabelLists.CutAppend | backend/app/services/db_upsert.py:153-153 | an append that does not fit stores the old labels, some leading new ones and the last piece of what is left of the new list |
| LabelLists.CutInventsLabel | backend/app/services/db_upsert.py:153-153 | with three characters left, adding "bcd" stores the label "bc" |
| LabelLists.FullColumnDropsLabels | backend/app/services/db_upsert.py:143-154 | a column at its full width drops every further label |
| ProxyColumn.ColumnReadsBack | backend/app/services/aggregator.py:550-553 | however the events are split into flushes, while every list fits the column and none is cut off each stored client row's proxy column reads back as exactly the labels of the events counted in it |
| HourlyProxies.HoursReadBack | backend/app/services/retention.py:307-349 | over every run of flushes and rollups in which no list is cut off, an hour's minute rows and hourly row together read back as exactly the labels of its events |
| Aggregator.AddDuration | backend/app/services/aggregator.py:145-160 | one duration is added to the sum and to exactly one band; a negative one to none |
| Aggregator.CountEvent | backend/app/services/aggregator.py:439-596 | one event's share is added under its key in each of the ten tables it belongs to; what shares and keys amount to is `DirectSums.TablesHold` |
| Aggregator.BuildBuckets | backend/app/services/aggregator.py:439-596 | the loop's buckets are the group-by of the batch in every table, and the raw rows are the batch |
| Aggregator.Aggregator.TakeBatch | backend/app/services/aggregator.py:303-305 | a flush writes the retained entries above the mark |
| Aggregator.Database.WriteWindow | backend/app/services/aggregator.py:307-369 | one transaction adds the batch to all ten tables and its fitting rows to the raw table, or leaves all of them unchanged: exactly if a row does not fit its columns or the commit fails |
| Aggregator.InsertRawEventsBatch | backend/app/services/aggregator.py:387-437 | exactly the rows that fit are inserted, in order, whether the batch goes in whole or row by row |
| Aggregates.RawIsCompleteIff | backend/app/services/aggregator.py:414-437 | the raw table lists every counted event if and only if each of them fits its columns |
| Columns.TakenIff | backend/app/models/minute_aggregate.py:22-62 | a flush of parsed events is taken if and only if each event's own row fits, every total it adds to (over all committed events and the window) fits its column, and so does every proxy list it writes |
| ColumnSums.TakenIffSumsFit | backend/app/models/minute_aggregate.py:22-62 | in terms of the events alone: a flush is taken if and only if each event's row and each proxy list fits, its minute's requests stay within 2^31-1 and bytes, uploads and durations within 2^63-1, and a refused event's hour stays within 2^31-1 denials and challenges |
| ColumnSums.TotalsFitIff | backend/app/models/minute_aggregate.py:22-62 | no total of the domain, client, category, code, HTTP and hierarchy tables can overflow unless its minute's does, nor a client's refusals unless the domain's do |
| Columns.TakesPrefix | backend/app/services/aggregator.py:303-305 | a window that is refused is refused with any further events behind it |
| Columns.FourProxiesOverflow | backend/app/models/client_aggregate.py:48-48 | four proxies with 64-character names in one client's minute are refused whatever the tables hold |
| Aggregator.Aggregator.FinishFlush | backend/app/services/aggregator.py:303-378 | the mark advances and the tailer may persist its position only after the commit; a failed commit changes nothing |
| Aggregates.FlushKeepsBatch | backend/app/services/aggregator.py:619-964 | a flush keeps every table equal to the group-by of all committed events |
| Aggregates.IncrementalIsBatch | backend/app/services/aggregator.py:303-378 | for every split of the committed events into flushes each table equals the direct group-by over all of them |
| DirectSums.TablesHold | backend/app/services/aggregator.py:476-560 | each of the ten tables has a row exactly where an event falls, and each column of the row is the plain sum over those events: requests, refusals, all, passed and refused bytes, hits and misses, durations by band, denials and 407s |
| DirectSums.SelectedClients | backend/app/services/aggregator.py:547-560 | whatever client rows are selected, `reply` is the sum of the passed events' bytes and `blockedReply` that of the refused ones, likewise uploads and counts |
| DirectSums.SelectedMinutes | backend/app/services/aggregator.py:482-496 | whatever minutes are selected, the sums of passed requests, all bytes, passed bytes and uploads, hits and misses over their events |
| DirectSums.HierarchyCodes | backend/app/services/aggregator.py:137-142 | a hierarchy code is what precedes the first slash, without blanks around it, or "NONE" where nothing does |
| DirectSums.HitTags | backend/app/services/aggregator.py:169-181 | TCP_HIT, TCP_MEM_HIT and TCP_REFRESH_UNMODIFIED are hits |
| DirectSums.MissTags | backend/app/services/aggregator.py:184-200 | TCP_MISS and TCP_REFRESH_MODIFIED are misses and not hits |
| DirectSums.OtherTags | backend/app/services/aggregator.py:184-200 | TCP_DENIED and TCP_TUNNEL are neither |
| Ledger.TablesAreCommitted | backend/app/services/aggregator.py:303-378 | in every state any pipeline run reaches the tables are the group-by of the committed events, and those meet what the reconciliation assumes |
| Ledger.TablesAreTheLog | backend/app/services/aggregator.py:303-378 | without a crash or overflow the tables are the group-by of the log's first events up to the flushed id, however flushes fail |
| Ledger.OversizedStalls | backend/app/services/log_parser.py:54-63 | once an event too wide for a status or address column is in the buffer, every further run commits nothing until it has been evicted |
| Ledger.RefusedStalls | backend/app/services/log_parser.py:54-63 | from every reachable state in which the waiting events are refused, every further run commits nothing and changes no table until the oldest of them has been evicted |
| Ledger.HugeSizesAreRefused | backend/app/models/minute_aggregate.py:28-28 | two lines whose events fit are refused together: a byte count of 2^63 - 1 and one of 1 in the same minute |
| Ledger.RawIsCommitted | backend/app/services/aggregator.py:351-369 | over every run against a database that enforces its columns, with source names that fit, the raw table lists exactly the committed events, in order |
| Aggregates.ConflictKeysDistinct | backend/app/services/aggregator.py:914-964 | without empty users no two client rows of a flush share the coalesce(user, '') key |
| Aggregates.EmptyUserCollides | backend/app/services/aggregator.py:914-964 | an empty user beside a missing one does collide on that key |
| Reconciliation.RequestsReconcile | backend/app/services/aggregator.py:476-560 | per minute and branches: total requests = allowed + blocked = sums of the duration bands, result codes, HTTP, hierarchy and client counts |
| Reconciliation.BytesReconcile | backend/app/services/aggregator.py:476-560 | per minute and branches: minute bytes = result-code bytes = client allowed plus blocked bytes, both directions |
| Reconciliation.RefusalsReconcile | backend/app/services/aggregator.py:792-848 | per hour, branch and domain both blocked tables agree, and denied plus auth equals the domain table's blocked count |
| Reconciliation.RefusalsAreBlocked | backend/app/services/squid_ops_service.py:856-862 | in every minute the 403s and 407s together are at most the blocked requests |
| Reconciliation.SplitAddsUp | backend/app/services/squid_ops_service.py:900-910 | a minute's three reasons are non-negative and add up to its blocked requests |
| Reconciliation.ParsedEventsQualify | backend/app/services/log_parser.py:397-424 | events that come out of the parser meet every assumption of the reconciliation and of the client key |
| Denials.SplitReasons | backend/app/services/squid_ops_service.py:888-910 | whatever order the minutes come in, each displayed bucket and the grand totals are the sums of their minutes' splits |
| Denials.AddsUpIffUnclipped | backend/app/services/squid_ops_service.py:900-910 | the reasons add up to the blocked requests for every choice of minutes if and only if no minute is clipped at zero |
| Denials.PageAddsUp | backend/app/services/squid_ops_service.py:856-910 | over any range of minutes of the aggregates of parsed events nothing is clipped, so the page's reasons add up |
| Rollup.ClientTables.RollUpBefore | backend/app/services/retention.py:273-353 | the minute rows before the cutoff leave, their hourly group-by is added to the hourly rows, all others stay; nothing changes exactly if an hour does not fit its columns |
| Rollup.AccumulateHours | backend/app/services/retention.py:297-329 | the accumulation loop is the group-by of the rows by hour, client, branch and user |
| Rollup.EachEventInOneRow | backend/app/services/retention.py:273-353 | over every run and for every selection of minutes, minute rows and rolled-up rows together count each committed event once |
| Rollup.RollupConserves | backend/app/services/retention.py:308-353 | for every hour, client, branch and user, minute rows plus hourly row equal the direct sum, for late events and unaligned cutoffs too |
| Rollup.HoursAddUp | backend/app/services/retention.py:308-353 | column by column: an hour's minute rows plus its hourly row are the sums over the events logged in that hour, of requests, refusals, passed and refused bytes and uploads |
| Rollup.QueryBounds | backend/app/services/client_service.py:52-90 | by the events' own times: from any whole minute at or after `since` on, the union query counts every event up to `until`, and it counts only events with since - 1h < time < until + 1h |
| Rollup.PartialMinuteIsMissed | backend/app/services/client_service.py:67-70 | an event in the range, alone in the tables, is missed if and only if its minute began before the range |
| Rollup.StepDisjointIff | backend/app/services/client_service.py:37-43 | from tables without a common hour, a flush or rollup makes one if and only if it reopens an hour or its cutoff splits one with rows on both sides |
| Rollup.SplitHourOverlaps | backend/app/services/retention.py:85-91 | a cutoff that splits an hour leaves that hour in both tables, whatever they held before |
| Rollup.TidyRunsAreDisjoint | backend/app/services/client_service.py:37-43 | over every run with cutoffs on the hour and no event older than an earlier cutoff the tables never share an hour |
| Rollup.UnalignedCutoffOverlaps | backend/app/services/retention.py:85-91 | one flush and one rollup with no late event leave an hour in both tables |
| Rollup.LateEventOverlaps | backend/app/services/client_service.py:37-43 | a late event leaves one too |
| LoginThrottle.LoginThrottle.AllowAttempt | backend/app/core/security.py:359-371 | the answer and the bookkeeping, sweep included, of a check |
| LoginThrottle.FailureIsRemembered | backend/app/core/security.py:373-377 | a recorded failure counts towards every answer until it is a window old, and no other email's answers change |
| LoginThrottle.SuccessForgets | backend/app/core/security.py:379-389 | after a success or a clear the email has no recent failure and is allowed, whenever asked, and no other email's answers change |
| LoginThrottle.LoginThrottle.Sweep | backend/app/core/security.py:391-401 | exactly the entries without a failure in the window and without a recent last attempt are deleted |
| LoginThrottle.SweepNeverChangesAnAnswer | backend/app/core/security.py:391-401 | for every run with a clock that never goes back, any two sweep frequencies give the same answers |
| LoginThrottle.WindowBound | backend/app/core/security.py:353-401 | over every run, successes and clears included, any window of the configured length holds n failures of an email since its last success or clear with (n - threshold) * interval < window |
| LoginThrottle.AllowedIff | backend/app/core/security.py:353-371 | at any point of any such run an attempt is allowed exactly if fewer than the threshold of the email's failures since its last success or clear lie in the window or the last of them is an interval ago |
| LoginThrottle.SpreadOut | backend/app/core/security.py:359-371 | failures beyond the threshold inside one window are at least an interval apart each |
| LoginThrottle.SpacedIffAllowed | backend/app/core/security.py:359-371 | one more failure keeps the spacing exactly if an attempt asked at that moment would be allowed |
| LoginThrottle.SpacedIffEachAllowed | backend/app/core/security.py:359-377 | any history keeps the spacing if and only if each failure would have been allowed when it was recorded |
| LoginThrottle.AllowedHistoriesAreBounded | backend/app/core/security.py:319-323 | such histories keep the bound, however the attempts overlapped |
| LoginThrottle.OverlappingAttemptsOverfill | backend/app/core/security.py:359-377 | two overlapping attempts break that bound |
| AuditChain.AppendVerifies | backend/app/services/audit_service.py:107-161 | a row recorded onto a verifying log, later than its last row and in sight of it, keeps it verifying |
| AuditChain.AuditLog.VerifyChain | backend/app/services/audit_service.py:266-318 | ok exactly if every row links to its predecessor and recomputes; otherwise the first failing row, its position and the right reason |
| AuditChain.VerifiesIffSerial | backend/app/services/audit_service.py:76-88 | a log written by any interleaving of transactions verifies if and only if each write is later than, and saw, the one committed before it |
| AuditChain.SerialVerifies | backend/app/services/audit_service.py:107-161 | writes that take turns in increasing (created_at, id) always verify |
| AuditChain.HashedFields | backend/app/services/audit_service.py:25-73 | the hashed text, cut at U+001E, is the ten fields in their order, U+0000 standing for a missing one |
| AuditChain.SameHashIff | backend/app/services/audit_service.py:25-73 | with a collision-free hash and no separator in a field, equal hashes mean equal fields, except that the sentinel reads as no value, and only then |
| AuditChain.HashPinsEntry | backend/app/services/audit_service.py:25-73 | equal hashes of clean entries mean equal entries |
| AuditChain.HeadPinsHistory | backend/app/services/audit_service.py:33-73 | two verifying logs with one newest hash are identical in length and every field |
| AuditChain.HashOccursOnce | backend/app/services/audit_service.py:33-73 | a hash occurs at one position only, after one history only |
| AuditChain.PrefixVerifies | backend/app/services/audit_service.py:266-318 | every prefix of a verifying log verifies |
| AuditChain.SeparatorMovesText | backend/app/services/audit_service.py:21-26 | a separator inside a field lets two different entries share a hash |
| ResponseTime.PercentileFromHist | backend/app/services/squid_ops_service.py:98-112 | the loop computes the percentile function whose accuracy is stated below |
| ResponseTime.PercentileInterpolates | backend/app/services/squid_ops_service.py:98-112 | the percentile is, to the nearest tenth, as far into the band of its target as the target is into the band's count; in the last band its lower end |
| ResponseTime.OverallBands | backend/app/services/squid_ops_service.py:229-244 | the merged bands are the column sums of all buckets |
| ResponseTime.PercentileInBand | backend/app/services/squid_ops_service.py:75-112 | for any spread of durations over buckets the percentile of the merged histogram lies in the closed band of the exact nearest-rank one, and within its width |
| ResponseTime.PercentileMonotone | backend/app/services/squid_ops_service.py:98-112 | a higher percentile is never reported lower |
| ResponseTime.AtRankExists | backend/app/services/squid_ops_service.py:102-102 | for every rank one of the durations is the exact nearest-rank one |
| ResponseTime.AtRankUnique | backend/app/services/squid_ops_service.py:102-102 | and is unique |
| ResponseTime.TargetIsRank | backend/app/services/squid_ops_service.py:99-102 | the target of a percentile above 0 and up to 100 is always such a rank |
| ResponseTime.MergedIsCollected | backend/app/services/squid_ops_service.py:229-244 | merged histograms are the histogram of all durations together |
| BlockFilters.CidrPrefixes | backend/app/services/block_filters.py:95-110 | at most 128 prefixes, matching an address exactly if it is in the network and the length is at most 24 |
| BlockFilters.NetworkIsBlocks | backend/app/services/block_filters.py:100-105 | a network is a whole number of blocks of its rounded-out length, between 1 and 128 of them |
| BlockFilters.ExpansionExact | backend/app/services/block_filters.py:95-110 | up to /24 an address is in the network if and only if its dotted text starts with one of the prefixes |
| BlockFilters.ExpansionDisjoint | backend/app/services/block_filters.py:95-110 | an address is matched by one prefix only |
| BlockFilters.ExpansionEmpty | backend/app/services/block_filters.py:95-110 | from /25 on the prefixes match no address |
| BlockFilters.StartsWithOctets | backend/app/services/block_filters.py:107-109 | a dotted address starts with another's first octets exactly if it shares them, and never with all four and a dot |
| BlockFilters.PrefixCondition | backend/app/services/block_filters.py:41-42 | the LIKE condition of a prefix matches exactly the texts that start with it, metacharacters and all |
| BlockFilters.TermCondition | backend/app/services/block_filters.py:41-53 | a term's LIKE pattern means what the page documents: the whole text, a wildcard, or contained |
| BlockFilters.CaseIsIgnored | backend/app/services/block_filters.py:45-53 | upper and lower case make no difference, in the text or in the term |
| BlockFilters.LikeWild | backend/app/services/block_filters.py:49-50 | in a wildcard term only the star is special |
| BlockFilters.ParseClient | backend/app/services/block_filters.py:116-137 | one term adds the addresses it selects, or is malformed |
| BlockFilters.PrefixTerms | backend/app/services/block_filters.py:128-132 | a prefix term is well formed exactly if it has one to three octets of up to three digits, and selects the addresses that start with them and the dot |
| BlockFilters.DottedOctets | backend/app/services/block_filters.py:107-109 | an address is written as its four octets, the most significant first |
| BlockFilters.ParseClients | backend/app/services/block_filters.py:87-140 | too many terms, the first malformed term, no filter, or a filter that passes an address exactly if some term selects it |
| BlockFilters.ParseDomains | backend/app/services/block_filters.py:36-79 | over 50 terms are refused; otherwise included terms are alternatives, excluded ones all apply, empty ones are ignored |
| BlockFilters.TermRead | backend/app/services/block_filters.py:72-73 | any number of exclamation marks in front exclude, and the rest is what the term says |
| BlockFilters.SaysNothingIff | backend/app/services/block_filters.py:73-74 | a term is ignored exactly if nothing but stars and equal signs follows them |
| Archive.Database.Archive | backend/app/services/archive_service.py:117-195 | branch by branch: the rows written, the window, the file that takes the name of an earlier one of the same dates, and the new watermark |
| Archive.Database.FindUnarchivedBranches | backend/app/services/retention.py:238-254 | exactly the configured branches without an archive up to the cutoff |
| Archive.Database.ArchivingTooFarBehind | backend/app/services/retention.py:256-271 | with a lag limit, exactly if no branch was archived within it |
| Archive.Database.DeleteRawEventsBefore | backend/app/services/retention.py:211-236 | the batches delete exactly the rows older than the cutoff, and the count is the number of rows gone |
| Archive.Database.PurgeRawEvents | backend/app/services/retention.py:97-126 | a run warns about every branch not archived up to the cutoff and deletes nothing while archiving lags |
| Archive.PurgedWereArchived | backend/app/services/retention.py:238-254 | if no purge warned about a configured branch, each of its purged rows was saved by its first archive at or after the row's time if and only if it is not older than the first window and was committed by then |
| Archive.KeptIff | backend/app/services/archive_service.py:141-178 | over every run, for every row: it is in a file on disk if and only if the first archive at or after its time that found it committed, and every later one of the same two dates, starts no later than the row and ran before its purge |
| Archive.WindowsCover | backend/app/services/archive_service.py:136-139 | the windows ever exported for a branch leave no instant out between the first one's start and its watermark |
| Archive.CoveredOnDiskIff | backend/app/services/archive_service.py:141-178 | a file on disk covers such an instant if and only if every later archive under the dates of the first that covered it starts in time |
| Archive.OtherDaysKeepIt | backend/app/services/archive_service.py:141-178 | an archive that no later one of its branch matches in both start day and end day is on disk with exactly what it saved |
| Archive.SameNameIff | backend/app/services/archive_service.py:141-141 | two archives share a name exactly if they are of one branch, start on one UTC day and end on one UTC day |
| Archive.NoDeleteWhileBehind | backend/app/services/retention.py:111-126 | with a lag limit rows are only deleted by a purge that found a fresh enough archive |
| Archive.RunKeeps | backend/app/services/archive_service.py:136-195 | every run of ingest, archive and purge steps keeps the invariant: gap-free windows, archives that saved exactly the rows there, and a disk that holds the newest archive of each name |
| Archive.LateRowCanVanish | backend/app/services/retention.py:238-254 | a run in which a row whose time was archived before it was committed is purged unarchived and unwarned |
| Archive.OldRowCanVanish | backend/app/services/archive_service.py:136-139 | a run in which a row older than the first window is |
| Archive.UnconfiguredBranchCanVanish | backend/app/services/retention.py:238-254 | a run in which a row of a branch that is not configured is |
| Archive.OverwrittenRowCanVanish | backend/app/services/archive_service.py:141-178 | a run in which a saved row is lost to a second archive of the same dates, purged and unwarned |
| Export.SelectPage | backend/app/services/export_service.py:195-201 | a page is the first matching ids beyond the cursor, ascending, and nothing is skipped |
| Export.StreamRows | backend/app/services/export_service.py:193-207 | over arbitrary changes between queries: ascending rows, each matching when read, each id decided by one query once finished, the counter equals the rows yielded, and it finishes within enough pages if only so many rows ever match |
| Export.PresentThroughout | backend/app/services/export_service.py:164-169 | a row that matches throughout is exported exactly once, one that never matches is not |
| Export.StaticExport | backend/app/services/export_service.py:193-207 | over an unchanging table the export is exactly the matching rows |

## Left out

- Pipeline.Conservation: one tailer on one inode feeds the buffer, `on_event` never raises, and a crash comes only after a checkpoint was written once; several tailers, rotation across a crash and the first start are not in this machine.
- TailerRuns.ExactlyOnce: a file is at the path at every poll, at most one rotation falls between two polls and no file is truncated (`CompleteIffNothingSkipped` and `NoticedTruncationLosesNothingNew` say what happens otherwise); the unreadable-file branch, which drops the handle undrained, is in the poll's specification but outside this run.
- Renderings.ThreeRenderings: times are exact decimals, where the program goes through a binary float; clocks with other than three decimals, exponents and "inf" or "nan" go to the library parameter `clock` or to exact rounding.
- LogTailer.LogTailer.PollOnce: the parser does not raise here; `RaisingLines` says what happens when it does, for a file that is not rotated.
- Columns.TakenIff: the widths are those of the models; a NUL character, which a text column of Postgres refuses, the range of the row ids and the derived subnet column are not modelled.
- Ledger.RefusedStalls: no crash in the stalled run; a process that dies reads the waiting events again from the persisted position.
- LogParser.ParseInt: digits and letters are ASCII; the digits of other scripts that Python also accepts are not modelled.
- ResponseTime.PercentileInBand: exact rationals and exact rounding to tenths, where the program uses binary floats.
- LoginThrottle.WindowBound: clock readings are real numbers; the normalisation of emails is left to the caller; a success or a clear starts the count anew.
- DirectSums.TablesHold: result tags are put in capitals as ASCII; a raw row is the event itself.
- BlockFilters.TermCondition: upper and lower case are ASCII; Unicode case folding by the database is not modelled.
- Archive.PurgedWereArchived: an export is one step here (its behaviour over a changing table is the subject of `Export`), archive calls do not overlap, and the encryption suffix of a name does not change.
- Archive.KeptIff: files that rotation deletes by age still count as being on disk.
- Aggregator.Database.WriteWindow: assumes no event has the empty user, which the parser guarantees, and a database that enforces its column widths, as Postgres does; a restart of the process inside the transaction is not modelled.
- SQL dialects, Alembic, connection handling and real transactions: tables are maps and sequences, a transaction happens wholly or not at all.
- Threads, asyncio and timers: only the interleavings named above.
- Encryption and rotation of archive files, CSV quoting, and the columns of an export: presentation.
- The purge of old aggregate rows, tokens, system events and job files: one `DELETE` each.
- Domain categories: one fixed function of the domain.
- Insights, alerts, reports, routes, sockets, permissions and the frontend: outside the record-keeping core.
- `MfaChallengeStore` and `WsTicketStore`: expiring dictionaries that add nothing to the throttle.
- How a log source's excluded clients are configured: they are a set of addresses here.
- `is_throttled`, `recent` and `subnet_of`: one-line views of state modelled above.
