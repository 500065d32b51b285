# Attention store and its companions: a verified model

This project models the parts of the attention service where several steps or several functions must
agree, and proves that they do.

- **Attention store** (`Items`, `Derived`, `Indexes`, `Transactions`, `Sweep`, `Reads`, `Runs`,
  `InterleavedReads`, `ReadFields`, `DedupRuns`, `DedupLimits`, `EditLaws`, `EditFields`, `Delivery`,
  `Store`): items with a three-state life, four derived indexes and the attempt records. A bolt transaction is one function on a `Db` value; the class
  `AttentionStore` commits those functions; `Runs` interleaves them with the snapshot, classify and
  prune steps of any number of reads.
- **History** (`Lex`, `Calendar`, `Keys`, `Prefilter`, `History`, `HistoryFields`): the order-preserving key, the raw-byte
  prefilter, and paging.
- **Task index** (`TaskIndex`, `TaskServing`, `TaskRuns`, `TaskQuiet`, `TaskFacts`): in-place application of
  changed paths and the stamp-based reconcile against the fresh walk, the object with its in-place maps, every
  interleaving of file writes with both, and what they amount to over a quiet directory.
- **Event log** (`EventLog`): the incremental fold over torn appends.
- **Spawn ledger** (`Ledger`, `LedgerRuns`): writes, the list cache, and the generation protocol under
  concurrent readers and writers.
- **Session registry** (`Registry`, `RegistryRuns`, `RegistryGone`): stamp reuse, the directory-stamp fresh
  cache, sessions that come and go while listings run, and which sessions a listing leaves out.
- **Weekly misroute count** (`Misroutes`): week dates of section 4.1.4 of ISO 8601:2004 and the tally.

The modules named `...Fields` and `TaskFacts` restate the main operations over the stored fields and the
files alone, without the model's own rules.

Clock readings, fresh ids, liveness verdicts, what a stat or a read returns, and the outcome of a
cancelled context are arguments. A liveness verdict is given per key and per transaction, so one prune
may see other verdicts than the classification before it. Instants are integer nanoseconds since
0000-01-01T00:00:00Z; a file stamp is one number that every write changes.

Some properties hold only under a condition, given here with an input that fails it:

- the dedup index holds every open row in a run from an empty store exactly when no push goes over an open
  row whose producer is reported gone (`DedupRuns.DedupCompleteExactly`, `DedupLimits.LostTwinRun`);
- the joined key tells two producers apart exactly when neither is the other followed by a NUL and perhaps
  more (`DedupLimits.JoinedKeyCollides`);
- the history order holds around year 0 exactly from year -1 to year 9999 (`Keys.YearsInOrderExactly`);
- a registry listing reports a session gone exactly when the walk behind it, its own or the one it reuses,
  resolved no entry while that entry carried the session (`RegistryGone.WalkListsExactly`,
  `RegistryGone.ReuseListsExactly`): a live session is missed when its entry cannot be read
  (`RegistryGone.UnreadEntryReadsAsGone`) or is rewritten in place under a reused listing
  (`RegistryGone.RewrittenInPlaceReadsAsGone`);
- the event-log reader keeps a record with provenance through every step exactly when the step is not a
  completed render over a log statted shorter than the offset, or what that render read holds the record too
  (`EventLog.OnlyStartingOverForgets`): a log that is gone by the read of such a render erases all that was
  shown (`EventLog.AbsentReadErases`), and a replacement that is not shorter goes unnoticed
  (`EventLog.ReplacedUnnoticed`).

## Model

| member | source | states |
|---|---|---|
| Derived.ReconcileExact | pkg/attention-store-index.go:223-293 | Reconciling an exact index for a written row leaves it exact for the new rows, even when the row's key moves |
| Derived.RemoveExact | pkg/attention-store-index.go:347-393 | Removing a row's entry from an exact index leaves it exact for the remaining rows |
| Derived.ReconcileSharedSound | pkg/attention-store-index.go:304-317 | Where rows share a key, reconciling keeps every entry the current value of a worthy row stored under that key |
| Derived.ReconcileSharedComplete | pkg/attention-store-index.go:304-317 | When no other worthy row has the key, reconciling also keeps every worthy row indexed |
| Derived.RemoveSharedSound | pkg/attention-store-index.go:422-442 | Removing a row drops its own dedup entry and no other row's |
| Derived.RebuildIndex | pkg/attention-store-impl.go:684-738 | The three passes (add, find stale, remove) compute the overlay of the wanted entries cut down to the wanted keys and the marker |
| Derived.RebuildRestores | pkg/attention-store-impl.go:684-738 | From any prior contents a rebuild is sound, complete where keys are separate, gives every shared key exactly one worthy representative, and keeps the marker apart |
| Indexes.EnsureConsistent | pkg/attention-store-impl.go:620-651 | Building an index leaves the store consistent and the index marked, with one representative per key when it was unmarked |
| Indexes.EnsureIndex | pkg/attention-store-impl.go:806-839 | The build method rebuilds and marks in one transaction unless the marker is there |
| Indexes.PutConsistent | pkg/attention-store-impl.go:486-532 | Writing a row keeps every marked index exact by value (dedup: sound by value) and attempts only for stored items, including the first-ever write |
| Indexes.RemoveConsistent | pkg/attention-store-impl.go:576-611 | Removing a row keeps all of that, taking its index entries and its attempt along |
| Indexes.IndexedById | pkg/attention-store-index.go:190-212 | A marked live index is, key by key, the non-closed rows and a marked open index the open rows |
| Indexes.IndexedByTime | pkg/attention-store-index.go:162-174 | A marked history index is all rows, each under its current time and id key |
| Indexes.HistoryHoldsEachRowOnce | pkg/attention-store-index.go:223-293 | No stale entry remains after a re-push rewrites CreatedAt: a row is under exactly one history key, its current one |
| Keys.HistoryKeyOrder | pkg/attention-store-index.go:94-112 | For years 0 to 9999 history keys sort exactly as (CreatedAt, ItemID) |
| Keys.HistoryKeyInjective | pkg/attention-store-index.go:171-174 | Two rows share a history key only if they share both instant and id |
| Keys.YearsInOrderExactly | pkg/attention-store-index.go:94-112 | Of the year ranges around year 0, history keys sort as their rows over exactly those within -1 to 9999 |
| Keys.YearTenThousandBreaksOrder | pkg/attention-store-index.go:94-106 | Every key of year 10000 sorts below every key of year 9999 |
| Keys.SignedYearsReverse | pkg/attention-store-index.go:94-106 | Of two signed four-digit years the earlier one sorts above |
| Keys.StampOrder | pkg/attention-store-index.go:94-106 | The fixed-width layout is order-preserving on encodable instants |
| Keys.FirstKey | pkg/attention-store-index.go:94-112 | The first instant of the calendar as it is written in a key |
| Keys.FormatWidth | pkg/attention-store-index.go:94-106 | On encodable instants the layout has one width |
| Calendar.EncodableYears | pkg/attention-store-index.go:94-106 | The encodable instants are exactly those whose UTC year is 0 to 9999 |
| Calendar.DateOrder | pkg/attention-store-index.go:94-106 | Calendar dates run in the order of their days |
| Calendar.Cycles | pkg/misroute-count.go:99-103 | The Gregorian calendar repeats every 400 years of 146,097 days |
| Runs.PushMeaning | pkg/attention-store-impl.go:62-106 | A push fails unchanged, or rewrites one stored open row with the joined key by the seven re-push fields, or adds one fresh row; nothing else changes |
| EditFields.PushByFields | pkg/attention-store.go:312-420 | A push is refused as invalid exactly by the fields of its request |
| Runs.DedupEntry | pkg/attention-store-impl.go:1801-1868 | Every dedup entry a push reads is, by value, a currently stored open row with that joined key |
| EditLaws.RepushChangesOnlyTheAsk | pkg/attention-store-impl.go:1820-1831 | A suppressed re-push takes the ask fields from the new request and leaves identity, escalation, flag, rating and answer fields alone |
| DedupRuns.PushingAgainIsPushingLater | pkg/attention-store-impl.go:62-136 | Pushing a request again while its producer lives leaves the bucket of one push at the later time: one row, under the first id, carrying the whole request |
| DedupRuns.PushOneOpen | pkg/attention-store-impl.go:1801-1831 | A push keeps every open row indexed and one open row per key exactly when it does not go over an open row whose producer is not live |
| DedupRuns.StepOneOpen | pkg/attention-store-index.go:304-317 | Of all steps, with any verdicts, only such a push breaks this, and it leaves two open rows under the key |
| DedupRuns.DedupCompleteExactly | pkg/attention-store-index.go:404-418 | In a run from an empty store the dedup index holds every open row at every moment, and open rows never share a key, exactly when no push of the run goes over an open row |
| DedupRuns.OpenRowsAreUnique | pkg/attention-store-index.go:304-317 | Where the dedup index holds every open row, no two open rows share a joined key |
| DedupRuns.PushKeepsOneRow | pkg/attention-store-impl.go:62-106 | There, each accepted push rewrites the one open row with the key, or adds the first |
| DedupLimits.JoinedKeyCollides | pkg/attention-store-index.go:138-149 | Two producers collide in the joined key, under dedup keys a push accepts, exactly when one is the other followed by a NUL and perhaps more |
| DedupLimits.JoinedKeyFaithful | pkg/attention-store-index.go:138-149 | Producers without a NUL never share a joined key |
| DedupLimits.PushOverLeavesTwo | pkg/attention-store-index.go:404-418 | A push over an open row leaves it open beside the new one, which the index names |
| DedupLimits.ClosedTwinForgetsTheOlder | pkg/attention-store-index.go:404-442 | Closing the newer row then leaves the older one open and unindexed |
| DedupLimits.LostTwinRun | pkg/attention-store-index.go:404-418 | A run from an empty store reaches this: completeness is lost at its second push, the open row is unindexed after the close |
| Items.EditEvolves | pkg/attention-store-impl.go:1260-1540 | Every written edit moves an item along the transition table within the fields its state still allows to change, and keeps the field pairings and answer shapes |
| Items.RecordedAnswersAreRoutable | pkg/attention-item.go:423-515 | Recorded answers name distinct existing tabs, each in the carrier its cardinality fixes, and never beside a single answer |
| Items.MatchAnswers | pkg/attention-item.go:457-477 | The map-building loop accepts exactly the answer lists whose every entry names a question and fits its cardinality |
| EditLaws.AnswerMeaning | pkg/attention-store-impl.go:1260-1394 | An answer is written exactly when the state admits it and the content fits; it records each declared value and touches nothing else |
| EditFields.AnswerByFields | pkg/attention-item.go:423-561 | An answer is accepted exactly by the item's state and the shape of each answer: one pick as a value, a multiple's picks as a list, a text as a value, a skip as nothing, per item or per tab |
| EditFields.EditByFields | pkg/attention-store-impl.go:1260-1540 | Which calls on a stored item go through, and which error every other one gets, by the fields of the call and the item |
| EditLaws.FirstAnswerWins | pkg/attention-store-impl.go:1287-1325 | On a message or ack every answer after the first is refused as already answered |
| EditLaws.OperatorsVerdictStands | pkg/attention-store-impl.go:1333-1353 | On a permission gate the arm's later answer attaches its resolver, cannot change a recorded verdict and erases no route |
| EditLaws.AnswerAndCloseRace | pkg/attention-store-impl.go:1477-1540 | Of an answer and a close that reach one open item: answer first, both are recorded and the close takes nothing from the answer; close first, the answer and any further close are refused |
| EditLaws.ClosedForGood | pkg/transition.go:33-80 | After any number of calls of any kind a closed item differs at most in the rating the last accepted rating left and in a flag some call cleared |
| EditLaws.AnyCallsEvolve | pkg/attention-store-impl.go:1260-1540 | Any sequence of accepted and refused calls keeps an item well-kept and only moves it along its life |
| EditLaws.EscalationIsAClaim | pkg/attention-store-impl.go:1409-1474 | The session that escalated may repeat it without moving its time, every other session is refused |
| EditLaws.UnflagUndoesFlag | pkg/attention-store-flag.go:31-122 | Unflagging undoes a flag, at once or after the flagged item was answered or closed; of two flags the later stands |
| EditLaws.RatingIsLastWriterWins | pkg/attention-store-rate.go:30-64 | Of two ratings the later stands; the empty rating restores an unrated item |
| Runs.EditMoves | pkg/answer-route.go:57-64 | A committed edit keeps all rows well-kept and moves one row along its life: requestID and policy never blank, a decision never changes, EscalatedBy is written once |
| Runs.StepKeeps | pkg/attention-store-impl.go:325-382 | Every step of every transaction and every read keeps the store consistent and each reader's snapshot an earlier value of what is stored |
| InterleavedReads.StepByFields | pkg/attention-store-impl.go:325-382 | What each write of a run does to the rows: pushes and calls commit their transaction or nothing, builds mark, sweeps and prunes take exactly their rows |
| Runs.RunKeeps | pkg/attention-store-impl.go:486-611 | In every reachable state, from an empty store or an unmarked one, every marked index is trusted and every row well-kept |
| Runs.RunMoves | pkg/attention-store-impl.go:1260-1540 | Between any two moments of a run each surviving row has only evolved, and removed ids never return |
| Runs.RemovalIsJustified | pkg/attention-store-impl.go:1000-1094 | A step that removes a row is a prune of a read that saw it, and the row was then open and past its deadline or reported dead by the prune's own probe |
| Runs.ReportsOutliveTheirProducer | pkg/attention-store-impl.go:220-263 | An ack item unexpired in a read's snapshot is never removed by that read |
| InterleavedReads.PruneRemovesExactly | pkg/attention-store-impl.go:1000-1094 | A read's prune removes exactly the rows it sorted out that are open and expired or reported gone then |
| InterleavedReads.InterleavedReadRemovesExactly | pkg/attention-store-impl.go:325-382 | Over a whole read a row leaves by its prune exactly when it was dead to the scan at the snapshot and is still removable |
| Runs.ResolvedRowsStay | pkg/attention-store-impl.go:1048-1094 | An answered or closed item is never removed, in any run |
| Runs.StatesAdvance | pkg/transition.go:33-80 | Over any run a row's state only advances, and a closed row keeps its answer, its ask and its closing time |
| Reads.UninterruptedRead | pkg/attention-store-impl.go:325-382 | Read answers the naive scan of the items bucket: open, unexpired, live or reported; ReadBoard adds the answered rows and drops open twins |
| Reads.ReadLeaves | pkg/attention-store-impl.go:325-382 | A read leaves a consistent store that lost exactly the dead rows still removable; no open row expired at its instant remains in the bucket or in any marked index |
| ReadFields.ReadByFields | pkg/attention-store-impl.go:172-199 | Row by row and by stored fields: which rows a read answers and which it leaves stored, for any deadlines, liveness refs and verdicts |
| ReadFields.DeadlineDecides | pkg/attention-store-impl.go:265-283 | An open row with no deadline is always answered and kept; one with a deadline is answered exactly before it and kept exactly when the scan or the prune is before it |
| ReadFields.RefText | pkg/liveness-ref.go:73-96 | A liveness ref is one of three models, a colon and a non-empty value |
| ReadFields.AskTells | pkg/attention-store-impl.go:402-404 | The joined identity of an ask tells producer, dedup key and payload apart where the first two hold no NUL |
| InterleavedReads.InterleavedReadIsNaive | pkg/attention-store-impl.go:325-382 | In every run a read answers the naive scan of the items bucket at its snapshot, row by row by the fields they had then, whatever is written meanwhile |
| Reads.PruneMeaning | pkg/attention-store-impl.go:1000-1094 | The prune removes exactly the given keys still open and expired or gone, keeping consistency and markers |
| Reads.SuppressIsTwinFree | pkg/attention-store-impl.go:402-461 | Board suppression drops exactly the open rows beside an answered row of the same ask |
| Reads.SweptBoardDropsNothing | pkg/attention-store-impl.go:441-461 | After a sweep board suppression drops nothing |
| Transactions.ClassifySnapshot | pkg/attention-store-impl.go:220-263 | The classification loop sorts a snapshot as the read's rule does and stops at the first error |
| Transactions.SuppressAnsweredTwins | pkg/attention-store-impl.go:441-461 | The two-pass loop drops exactly the open items whose ask an answered one carries |
| Transactions.PruneDead | pkg/attention-store-impl.go:1000-1029 | The compare-and-delete loop is all-or-nothing and re-checks each key |
| Sweep.SweepMeaning | pkg/attention-store-impl.go:1565-1790 | A sweep closes exactly the overdue answered rows and the open rows sharing an ask with a remaining answered row, counts them, and changes nothing else |
| Sweep.SweepLeavesNoneDue | pkg/attention-store-impl.go:1565-1790 | Afterwards no answered row is older than the cutoff and no open row has an answered twin |
| Sweep.SweepTwice | pkg/attention-store-impl.go:1565-1602 | A second sweep at the same instant returns 0 and changes no row |
| ReadFields.SweepByFields | pkg/attention-store-impl.go:1565-1790 | Row by row and by stored fields: which rows a sweep closes, at which time, with every other field and row as it was, and the count of those changed |
| Sweep.SweepAnswered | pkg/attention-store-impl.go:1565-1790 | The two scanning loops and the two closing loops compute the sweep |
| History.WalkIsHistory | pkg/attention-store-impl.go:1157-1223 | The reverse walk of the history index visits all visible rows by (CreatedAt, ItemID) descending |
| History.PageIsSlice | pkg/attention-store-impl.go:1123-1223 | A page is the [offset, offset+limit) slice of that one history |
| History.StorePagesAreHistory | pkg/attention-store-impl.go:1123-1223 | Consecutive pages of an unchanged store at one instant concatenate to its history, complete once a page comes short |
| History.HistoryUnique | pkg/attention-store-impl.go:1123-1145 | The newest-first order leaves only one history of a given row set |
| HistoryFields.HistoryByFields | pkg/attention-history-filter.go:95-105 | A stored row is in the history exactly when its producer is named or none is, its dedup key is the last prefix and some text, and it is not an open row at or past its deadline |
| HistoryFields.SlicePlaces | pkg/attention-store-impl.go:1157-1223 | A page holds, place by place, up to limit rows from the offset on |
| History.CollectHistoryPage | pkg/attention-store-impl.go:1157-1223 | The cursor loop with its skip and early stop returns that slice |
| Prefilter.PrefilterSound | pkg/attention-history-filter.go:69-92 | The raw-byte prefilter never discards a row the exact filter accepts |
| Prefilter.EscapeIsJson | pkg/attention-history-filter.go:33-64 | The encoding the needles are built from is a JSON string (section 7 of RFC 8259) that reads back as the text |
| Prefilter.MayMatch | pkg/attention-history-filter.go:69-92 | The loop over needles decides whether the encoded bytes contain a producer needle and the prefix needle |
| Prefilter.NewHistoryMatcher | pkg/attention-history-filter.go:33-64 | The merged matcher holds every named producer, the last prefix, and their encoded needles |
| Store.AttentionStore.Push | pkg/attention-store-impl.go:62-106 | The push method commits exactly the push transaction and keeps the store valid |
| Store.AttentionStore.Update | pkg/attention-store-impl.go:1260-1540 | Answer, escalate, close, flag, unflag and rate go through exactly when the fields of call and item allow, committing their transaction or leaving the store as it was |
| Store.AttentionStore.RecordAttempt | pkg/attention-store-attempt.go:30-65 | An attempt is recorded only for a stored item and replaces the previous one |
| Store.AttentionStore.Read | pkg/attention-store-impl.go:172-199 | The read method answers and leaves each row as its stored fields say, and, the clock not running back, no expired open row |
| Store.AttentionStore.SweepAnswered | pkg/attention-store-impl.go:1565-1602 | The returned count is the number of rows closed, which are exactly the swept keys |
| Store.AttentionStore.History | pkg/attention-store-impl.go:1123-1145 | The history method answers a slice of the history of exactly the rows the filters and deadlines admit |
| Delivery.RecordedIsReported | pkg/attention-store-attempt.go:30-141 | A recorded attempt is what that item's report says, and no other report changes |
| Delivery.AttemptByFields | pkg/delivery-attempt.go:28-165 | An attempt is recorded exactly for a stored item, with a carrier and one of three outcomes, and reported with that outcome |
| Delivery.UnattemptedByFields | pkg/attention-store-attempt.go:119-133 | Without an attempt the report tells whether the answer, or else the creation, lies before the trail epoch |
| Delivery.EditsKeepReports | pkg/attention-store-attempt.go:83-141 | Edits never change the report of an attempted item, nor another item's |
| Delivery.NewItemsAreUnattempted | pkg/attention-store-attempt.go:119-133 | A new item has no attempt; its report turns on the trail epoch |
| Delivery.ReportIsOfTheLastAttempt | pkg/attention-store-attempt.go:83-141 | At every moment of every run an item's report is that of the last attempt recorded for it, reads never attempted or unknown exactly when none was, and an id that is not stored has none |
| TaskIndex.PickIsWinner | pkg/task-index.go:949-983 | The tie-break over ascending paths picks the greatest in-flight path, else the greatest path |
| TaskIndex.LookupServesTheWinner | pkg/task-index.go:757-769 | A session resolves exactly when some path names it, and then to its winner's entry |
| TaskFacts.AnswersByFacts | pkg/task-index.go:839-983 | An exact index answers a session some task file names, with the greatest of its files still in flight, else the greatest: that file's path, title, marker, goals and topic |
| TaskFacts.BuildAnswers | pkg/task-index.go:697-724 | A fresh build answers so |
| TaskFacts.BatchAnswers | pkg/task-index.go:351-449 | So does an index after a batch that covers what changed, event paths read as text |
| TaskFacts.QuietReconcileAnswers | pkg/task-index.go:499-618 | And after a reconcile of a quiet directory, from whatever state |
| TaskFacts.EventPathText | pkg/task-index.go:646-663 | An event names a task file exactly when it is the task directory, slashes, a title and .md |
| TaskIndex.AddCoherent | pkg/task-index.go:916-925 | Adding a new path keeps both session maps what byPath determines |
| TaskIndex.ForgetCoherent | pkg/task-index.go:932-945 | Forgetting a path does, dropping a session with its last path |
| TaskIndex.CoherentDetermined | pkg/task-index.go:184-193 | bySessionPaths and bySession follow from byPath alone |
| TaskIndex.GoalIsFirstExisting | pkg/task-index.go:904-912 | The goals are the declared titles that exist, in order, and the goal shown is the first |
| TaskIndex.ReresolveIsRereading | pkg/task-index.go:628-642 | Re-deriving a held entry under new rungs equals reading its file again under them |
| TaskIndex.ApplyConverges | pkg/task-index.go:351-449 | Any batch covering every changed path, in any order with repeats, deletions and foreign paths, turns an index exact for the old vault into one exact for the new |
| TaskIndex.ApplyIsFreshWalk | pkg/task-index.go:351-449 | From the walk of one vault such a batch yields the walk of the other, in all four maps |
| TaskIndex.FreshWalkIsExact | pkg/task-index.go:697-724 | The walk of a complete listing holds exactly what each task file yields |
| TaskIndex.ReconcileIsFreshWalk | pkg/task-index.go:542-618 | Over a quiet directory a reconcile that reuses stamped entries yields what a fresh build yields |
| TaskServing.ServingIndex.RecomputeSession | pkg/task-index.go:961-983 | The winner loop recomputes one session in place |
| TaskServing.ServingIndex.ForgetPath | pkg/task-index.go:932-945 | The in-place removal updates the four maps as specified |
| TaskIndex.UndisturbedBatch | pkg/task-index.go:351-449 | Stats and reads that find what a vault holds make the batch of that vault |
| TaskServing.ServingIndex.ApplyPaths | pkg/task-index.go:351-449 | Whatever its stats and reads return, a batch is read whole and then applied in place, once, keeping coherence; an unreadable directory or a cancellation applies nothing |
| TaskServing.ServingIndex.ClaimRefresh | pkg/task-index.go:464-480 | The token is granted exactly when none is held and, on the backstop, the window has passed |
| TaskServing.ServingIndex.Reconcile | pkg/task-index.go:499-533 | With one in flight, an unreadable directory or a cancelled walk the index stays; otherwise the result is that of a fresh build under the re-read rungs |
| TaskServing.ServingIndex.Install | pkg/task-index.go:313-328 | A swap happens exactly when the base sequence is the applied one |
| TaskServing.ServingIndex.LookupSession | pkg/task-index.go:740-766 | Past the backstop window a lookup reconciles first; it answers the winner's task of the index it then has |
| TaskRuns.StepKeeps | pkg/task-index.go:351-449 | Every write, stat, read, commit, walk and install step keeps stamps honest, sessions coherent and the single-flight token |
| TaskRuns.IndexIsHonest | pkg/task-index.go:542-618 | After any run an indexed path whose stored stamp is its file's holds what the bytes yield, and at most one reconcile is in flight |
| TaskRuns.InstallDiscardsNoApply | pkg/task-index.go:313-328 | An install serves the walk exactly when no batch committed since its snapshot; otherwise it changes nothing |
| TaskQuiet.QuietReconcileRepairs | pkg/task-index.go:499-618 | From any state that keeps the invariant, a reconcile stepping through a quiet directory installs exactly the fresh build under the re-read rungs, unless a batch commits meanwhile, which it leaves in place |
| TaskQuiet.QuietBatchCommitsTheVault | pkg/task-index.go:351-449 | A batch stepping through a quiet directory commits exactly the vault's files onto what is served by then |
| TaskRuns.RunKeeps | pkg/task-index.go:464-480 | The invariant holds along every run |
| EventLog.RunStaysSynced | pkg/provenance.go:973-1042 | Over any torn appends and failing, cancelled or completed renders the events are the fold of the complete lines before the offset, which never goes back, and records with provenance stay |
| EventLog.RunThenRenderShowsAll | pkg/provenance.go:973-1042 | A completed render after any such run shows the fold of the whole log |
| EventLog.RenderStaysSynced | pkg/provenance.go:973-1042 | One render keeps this, and a completed one has folded every complete line it statted |
| EventLog.ShorterLogRestarts | pkg/provenance.go:1004-1039 | A render that sees a shorter log and completes has folded what it read onto nothing, an absent file being read as empty; failed or cancelled, it changes nothing |
| EventLog.StartingOverSyncs | pkg/provenance.go:992-1039 | After any truncations and replacements, between a stat and its read included, one render that starts over makes the reader synced, until the log is replaced again |
| EventLog.OnlyStartingOverForgets | pkg/provenance.go:1004-1039 | A record with provenance is held after any step, whatever the read returns, exactly when the step does not start over or the refold of what was read holds it too |
| EventLog.ReplacedUnnoticed | pkg/provenance.go:999-1013 | A run in which a log replaced by one of the same size goes unnoticed through a completed render |
| EventLog.AbsentReadErases | pkg/provenance.go:994-1039 | A run in which a log found shorter is gone at the read, so every record shown is erased, while one gone at the stat erases none |
| EventLog.FoldChooses | pkg/provenance.go:1087-1094 | Each item keeps its first record with provenance, or with none its last record |
| EventLog.FoldByFields | pkg/provenance.go:1087-1094 | By fields: the first record with a host, a directory or a pane is kept, with none such the last |
| EventLog.FoldKeepsChosen | pkg/provenance.go:1087-1094 | Only one record can be that one, and it is what the fold holds |
| EventLog.CarriedStays | pkg/provenance.go:1087-1094 | A record carrying host, cwd or pane is never replaced |
| EventLog.RecordsConcat | pkg/provenance.go:1051-1070 | Splitting a log after a complete line splits what it says |
| EventLog.MergeEventBytes | pkg/provenance.go:1051-1097 | The line loop consumes up to the last newline and folds those lines, or reports a cancellation and publishes nothing |
| EventLog.EventReader.ReadEvents | pkg/provenance.go:973-1042 | A render updates one producer's offset and events as specified and answers its events |
| LedgerRuns.NoAnswerMissesAReturnedWrite | pkg/session-ledger-store.go:102-146 | A List or ListJSON that starts after a write returned answers every row, once, of a version no older than that write, in every interleaving |
| LedgerRuns.StepKeeps | pkg/session-ledger-store.go:109-146 | Each step keeps cached listings no older than the last settled write, since a reader may only store under an unmoved generation |
| LedgerRuns.RunKeeps | pkg/session-ledger-store.go:281-324 | Along every run the history only extends and the invariant holds |
| Ledger.ImportMeaning | pkg/session-ledger-store.go:344-374 | An import succeeds exactly when every row is valid, keeps present rows and adds the first row for each other key |
| Ledger.ImportIdempotent | pkg/session-ledger-store.go:325-343 | A second import of the same rows adds nothing |
| Ledger.ListingIsRows | pkg/session-ledger-store.go:281-300 | A listing holds every stored row once, each at the place of its key |
| Ledger.LedgerStore.Import | pkg/session-ledger-store.go:344-374 | The loop's counter is the number of keys added and a failed import leaves the rows |
| Ledger.LedgerStore.Post | pkg/session-ledger-store.go:163-178 | A valid row is stored, an invalid one refused, and the cache dropped either way |
| Ledger.LedgerStore.PatchEntry | pkg/session-ledger-store.go:187-237 | A patch merges in one transaction, reports an absent row without error and never stores an invalid one |
| Ledger.LedgerStore.List | pkg/session-ledger-store.go:281-300 | A list holds every stored row once, from the cache or not |
| Ledger.LedgerStore.ListJSON | pkg/session-ledger-store.go:308-324 | The body encodes a list of every stored row once |
| RegistryRuns.FreshMissesNothing | pkg/session-liveness-checker.go:276-303 | A fresh answer, reused or from a complete walk, misses no session file present at the call's own directory stat and not removed since |
| RegistryRuns.HeldIsACompleteWalk | pkg/session-liveness-checker.go:287-303 | In every run, what is held for reuse is the whole of one earlier walk begun under the held directory stamp, which resolved every entry and closed at the held time |
| RegistryGone.WalkListsExactly | pkg/session-liveness-checker.go:348-431 | A walk, whatever changes and whichever stats and reads fail meanwhile, reports a session gone exactly when none of its steps resolved an entry carrying it then |
| RegistryGone.WalkMissesExactly | pkg/session-liveness-checker.go:348-431 | A session one file alone carries from the listing to the answer is reported gone exactly when a stat or a read of the walk fails at that file |
| RegistryGone.ReuseListsExactly | pkg/session-liveness-checker.go:276-303 | A reused answer reports a session gone exactly when no step of the walk it reuses resolved an entry carrying it |
| RegistryGone.ReuseMissesExactly | pkg/session-liveness-checker.go:45-54 | For a file as old as the held stamp and alone in ever carrying the session: the reused walk resolved it at one step, and the session is reported gone exactly when the file carried another one then |
| RegistryGone.ReuseMissesTheRewritten | pkg/session-liveness-checker.go:45-54 | A session such a file carries now but a reused answer lacks was written into it in place after the walk resolved it |
| RegistryGone.UnreadEntryReadsAsGone | pkg/session-liveness-checker.go:408-431 | A run in which one entry's stat fails, so the live session it carries is reported gone |
| RegistryGone.RewrittenInPlaceReadsAsGone | pkg/session-liveness-checker.go:45-54 | A run in which every entry resolved, the file was then rewritten in place, and the new session is reported gone by reuse |
| RegistryRuns.StepKeeps | pkg/session-liveness-checker.go:348-431 | Every creation, rewrite, removal, stat and read step keeps stamps honest and every listing covering |
| Registry.StampsChangeNothing | pkg/session-liveness-checker.go:408-431 | A listing that reuses stamps equals the listing that reads every file |
| Registry.ListingMeaning | pkg/session-liveness-checker.go:348-392 | A listing holds exactly the sessions of the resolvable files and is complete exactly when all resolve |
| Registry.LiveByText | pkg/session-liveness-checker.go:348-466 | The live ids are those that files named in .json carry, a blank one carrying none |
| Registry.SessionRegistry.ListResolved | pkg/session-liveness-checker.go:348-392 | The loop over names lists as if every file were read and leaves honest stamps |
| Registry.SessionRegistry.LiveSessions | pkg/session-liveness-checker.go:251-267 | A listing inside the window is served as it was, else a new one is stamped when it returned |
| Registry.SessionRegistry.LiveSessionsFresh | pkg/session-liveness-checker.go:276-303 | The held listing is answered as it is under its own stamp and inside the window; otherwise a new one is the directory's sessions, and held exactly when the stamp is known and every entry resolved |
| Registry.SessionRegistry.IsLive | pkg/session-liveness-checker.go:214-238 | A session is live exactly when it is named and the cached listing of one directory or the fresh listing of another, later one says so, an unreadable registry saying live |
| Registry.ReadLiveness.IsLive | pkg/session-liveness-checker.go:522-543 | One read lists at most twice, and answers gone only after its fresh listing |
| Misroutes.WrittenWeekReadsBack | pkg/misroute-count.go:44-119 | A written week parses back to itself exactly when the year has that week and fits four columns, and is refused otherwise |
| Misroutes.ParsedWeekExists | pkg/misroute-count.go:44-91 | Whatever text is accepted names an existing week that is read back from its canonical form |
| Misroutes.MondayOfWeek | pkg/misroute-count.go:75-103 | The date derived from 4 January carries the week's number exactly when the year has it, so non-existent week 53s are refused |
| Misroutes.WindowsPartitionTime | pkg/misroute-count.go:105-114 | The half-open windows of existing weeks contain each instant exactly once |
| Misroutes.EachDayHasOneReadableWeek | pkg/misroute-count.go:44-114 | Each day of the years 1 to 9999 lies in the window of exactly one accepted week |
| Misroutes.CountConserves | pkg/misroute-count.go:180-228 | The row counts add up to the items flagged inside the window and no two rows share a (producer, trimmed reason) |
| Misroutes.CountByFields | pkg/misroute-count.go:180-228 | One row for each producer and trimmed reason some item was flagged with inside the window, with how many were and the kind the first of them reported as |
| Misroutes.CountUnique | pkg/misroute-count.go:212-221 | The order is total, so one population has one report whatever order the map is iterated in |
| Misroutes.CountIgnoresOrder | pkg/misroute-count.go:180-228 | Any order of the items gives the same buckets with the same counts at the same places |
| Misroutes.FirstRowLeads | pkg/misroute-count.go:212-221 | No bucket, listed or not, exceeds the first row |
| Misroutes.CountMisroutes | pkg/misroute-count.go:180-228 | The loops and the sort produce the ordered report, one row per bucket with its tally and first kind, and the week's first and last day |

## Left out

- HTTP handlers, factory and main wiring, tokens, metrics, build identity, the federating and remote stores, heartbeat snapshots, change notifier: plumbing or thin routing.
- Enumerated fields (producer kind, provenance class, risk and the like) are valid by type or free strings; their one-branch validators are not modelled, nor is the request rule that repeats on the stored item.
- Directly stored items that break `Item.Validate`: a re-push never re-validates the merged row, and no claim here says it would pass.
- I/O errors inside a transaction, the `/resetbucket` operation and clock steps in history paging: transactions are all-or-nothing.
- Building an index and taking the snapshot are two steps of a read; the model lets any other step fall between them.
- The liveness probe itself: a push and a prune are given the verdict. `Registry.ReadLiveness.IsLive` models the per-read source on its own.
- JSON beyond string escaping: the rest of an encoded row is an arbitrary suffix, and a prefix that splits a multi-byte rune is not modelled, characters standing for whole runes.
- Frontmatter parsing, wikilinks, goal and topic pages: a task file is what the reader finds in it, and the rungs are whatever was read.
- Path cleaning of dot segments in event paths; directories named like task files; the set of topic titles, which no task entry depends on.
- The backstop window in the interleavings of the task index: a claim is allowed there whenever no reconcile holds the token, which covers every timing of the window; `TaskServing` has the window itself.
- A task index with no vault configured, which every operation returns from at once.
- The fallback from a prefixed producer id to the bare one when its event log is empty.
- The 64-bit wrap-around of the ledger generation; row validation, patch decoding and body encoding of the ledger are arbitrary functions.
- Locks are modelled by the atomicity of the steps they guard; the registry model lets listings overlap more than its locks do.
- DST gaps: a location is a fixed offset from UTC.
- The library sort of the misroute rows: modelled as insertion into place, `Misroutes.CountUnique` showing that every sort gives the same rows.
