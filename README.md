# callsignscrapper core in Dafny

A model of the two parts of the MCMC amateur-radio call-sign scraper that
carry its logic:

- **The storage layer** (`database.py`): three JSON files, each either
  missing, unreadable or decoded.
  - The assignment store is a list of records keyed by call sign, merged
    with `upsert_assignments_batch`.
  - The session ledger is a list of sessions numbered from 1. Sessions are
    opened, updated and completed by id.
  - The checkpoint is a single optional (session, page, record count).
  - The files and the clock live in a `Store` class. Its methods rewrite
    the files as the Python functions do.
  - A ghost log beside the files records every storage call that writes
    a file, with the counts each upsert returned. The two reads,
    `get_assignment_count` and `get_checkpoint`, are not logged.
- **The scraping driver** (`scraper.py`):
  - the row filter;
  - the click-through navigation to the resume page;
  - the page loop of `scrape_with_session`, with its stops "completed",
    "blocked", "rotate" and its exceptions;
  - the long-break rule of `random_delay`;
  - the outer loop of `scrape_all`: a fresh start, resume from the
    checkpoint or a new session, then one browser session per round until
    one returns "completed", closing with the checkpoint cleared and the
    session finalised, or with a failure checkpoint and a failed session
    on an exception.

Each loop of the source is a method with a loop. The method is
proved equal to a pure function: `UpsertRecords`/`Upsert`,
`ProcessRows`/`PageAssignments`, `FindSession`/`FirstWithId`,
`Navigate`/`Navigation`, `ScrapeWithSession`/`SessionRun` and
`ScrapeAll`/`ScrapeAllSpec`. The
properties are lemmas about these functions.

The browser is an oracle, `Browser`. It holds:
- whether setup raises;
- what the table extraction shows at each browser position;
- the outcome of each "next page" click.

The constants `max_pages`, `SESSION_ROTATE_EVERY`, `SAVE_CHECKPOINT_EVERY`,
the duplicate threshold and `LONG_BREAK_EVERY` are a `Config`.
`SourceConfig` holds the values `scraper.py` uses. `datetime.now()` is a
reading of a clock, `clock(ticks)`. The store advances `ticks` at every
call the source makes.

A session of `scrape_with_session` is unfolded into a trace: one pass per
page, each with the cursor before it and the step it took. Its log of
storage calls is the concatenation of the passes' logs. The session lemmas
read their properties off that trace.

Behaviour of the code worth knowing, proved about the model:
- **Blocked and rotate checkpoints.** `save_checkpoint` is documented as
  saving state "for resume capability" (database.py:167), and `scrape_all`
  resumes "from next page" (scraper.py:351). That suits the periodic
  checkpoint, which is written after its page was saved
  (scraper.py:309-310). The checkpoints written on "rotate" and "blocked"
  (scraper.py:253, 267) name a page that has not been processed, so a
  later run resumed from one of them skips that page
  (`ResumeSkipsExitPage`). Within one run nothing is skipped, because
  `scrape_all` goes on from the returned page itself, under the same
  session id (scraper.py:360-378): the pages recorded across all rounds
  of a run are consecutive (`RoundsPages`).
- **Exception checkpoint.** After an exception, `scrape_all` reports
  "Error at page" and checkpoints `current_page` (scraper.py:381-382).
  That variable still holds the page the failing session started from,
  with the record count from before that session (`ResumeAfterAbort`).
  This can be earlier than a periodic checkpoint the failing session had
  already written.
- **Row numbers.** The `isdigit` test (scraper.py:274) also accepts
  `"0"` and leading zeros (`LeadingZeroIgnored`).
- **Rotation.** `SESSION_ROTATE_EVERY` is marked "Disabled" at
  scraper.py:33. With `max_pages` 1000 and the limit 10000 it never fires
  (`SourceSessionsNeverRotate`).

## Model

| member | source | states |
|---|---|---|
| Records.LoadJson | database.py:16-26 | a decoded file gives its content; a missing or unreadable one gives the default |
| Records.MalformedReadsAsAbsent | database.py:20-26 | an unreadable file reads exactly like a missing one |
| RecordStore.PositionIndexSpec | database.py:67 | the call-sign index holds exactly the stored keys, each mapped to a position holding that key, and the last such position when a key repeats |
| RecordStore.UpsertRecords | database.py:62-94 | the merge loop builds the records and counts that `Upsert` describes |
| RecordStore.LastRow | database.py:82-87 | finds a row of the batch with the key after which no row has that key, and finds none exactly when the key is absent from the batch |
| RecordStore.NewKeys | database.py:88-94 | the new keys are distinct, none was stored, and every batch key that was not stored is among them |
| RecordStore.NewKeysInOrder | database.py:88-94 | the new keys come in the order of their first row in the batch, which is the order the loop appends their records in |
| RecordStore.UpsertCounts | database.py:69-98 | added + updated is the batch length, and the list grows by exactly `added` |
| RecordStore.UpsertCharacterized | database.py:82-94 | the result is the stored records, each refreshed from the last batch row with its key, followed by one fresh record per new key in batch order; `added` is the number of new keys |
| RecordStore.UpsertKeys | database.py:66-94 | the keys become the old keys plus the new keys; distinct keys stay distinct; every batch key is stored afterwards; no key comes from anywhere else |
| RecordStore.UpsertKeepsPositions | database.py:82-94 | stored records keep their position, key and `first_seen_at`; records whose key is not in the batch are unchanged; new records carry `first_seen_at == last_updated_at == now` |
| RecordStore.NoNewKeysWhenAllStored | database.py:82-87 | a batch of stored keys adds nothing |
| RecordStore.UpsertIdempotent | database.py:82-94 | applying a batch again adds nothing, updates every row and keeps the keys; with the same timestamp it changes nothing |
| RecordStore.RefreshedIsFixed | database.py:82-87 | refreshing an upserted list from the same batch at the same time changes nothing |
| Ledger.FirstWithId | database.py:135-143 | finds the first session with the id, and finds none exactly when no session has it |
| Ledger.FindSession | database.py:135-143 | the search loop stops at the first session with the id |
| Ledger.FirstMatchIsUnique | database.py:135-143 | the first match is the entry before which no id matches |
| Ledger.StartAppendsOne | database.py:119-129 | starting returns length + 1 and appends one running entry with that id, leaving earlier entries alone; a numbered ledger stays numbered and the id is fresh |
| Ledger.EditTouchesFirstMatchOnly | database.py:134-161 | an update or completion changes only the first entry with the id, keeps length and ids, and leaves the ledger as it was when no entry matches |
| Ledger.ProgressKeepsStatus | database.py:132-144 | a progress update never changes a status or a completion time |
| Ledger.FinaliseSetsStatus | database.py:147-161 | completing sets the matching entry's status, completion time and counters |
| Ledger.FinaliseTwiceLastWins | database.py:147-161 | a completion after any other edit of the session wins |
| Ledger.FirstWithIdDependsOnIds | database.py:150-160 | the lookup depends only on the ids, so edits do not move it |
| Database.UpsertSavesMerge | database.py:58-102 | the upsert writes the merge of the stored records with the batch and returns its counts |
| Database.UpsertStampsMetadata | database.py:96-100 | the metadata records the new length and the second clock reading; ledger and checkpoint are untouched |
| Database.UpsertBookkeeping | database.py:92-100 | counts add up to the batch, the store grows by `added`, `total_count` equals the new length |
| Database.UpsertKeepsKeysDistinct | database.py:66-94 | distinct call signs stay distinct through an upsert |
| Database.UpsertTwiceAddsNothing | database.py:58-102 | the same batch upserted twice: the second adds nothing, updates every row and keeps the store size |
| Database.ClearLeavesNothing | database.py:42-47 | clearing empties the store and removes the checkpoint |
| Database.CheckpointRoundTrip | database.py:166-189 | `get_checkpoint` after `save_checkpoint(s, p, r)` gives `(s, p, r)`; after `clear_checkpoint` it gives nothing |
| Database.LedgerCallsKeepNumbering | database.py:119-161 | start, update and complete keep the ledger numbered 1..n; start adds one entry with a fresh id |
| Database.Store.ClearAssignments | database.py:42-47 | the files and clock after `clear_assignments` |
| Database.Store.UpsertAssignmentsBatch | database.py:58-102 | the files, clock and returned counts of `upsert_assignments_batch` |
| Database.Store.GetAssignmentCount | database.py:105-108 | returns the stored record count and takes one clock reading |
| Database.Store.StartScrapeSession | database.py:119-129 | the ledger and returned id of `start_scrape_session` |
| Database.Store.UpdateScrapeSession | database.py:132-144 | the ledger after `update_scrape_session` |
| Database.Store.CompleteScrapeSession | database.py:147-161 | the ledger after `complete_scrape_session`, with a clock reading only when an entry matches |
| Database.Store.SaveCheckpoint | database.py:166-173 | the checkpoint file after `save_checkpoint` |
| Database.Store.GetCheckpoint | database.py:176-183 | returns the checkpoint the file holds, changing nothing |
| Database.Store.ClearCheckpoint | database.py:186-189 | the checkpoint file is removed |
| Rows.Decimal | scraper.py:276 | the decimal text of a number is all digits, without a leading zero |
| Rows.DecimalRoundTrip | scraper.py:276 | `int` of the decimal text of `n` is `n` |
| Rows.LeadingZeroIgnored | scraper.py:274-276 | a leading zero passes the digit test and does not change the value |
| Rows.PageAssignments | scraper.py:272-281 | every kept row has a call sign, a holder and a non-negative row number, and no more rows come out than went in |
| Rows.ProcessRows | scraper.py:272-281 | the filter loop builds exactly `PageAssignments` of the table |
| Rows.PageAssignmentsConcat | scraper.py:273-281 | the filter works row by row: filtering a concatenation concatenates the results |
| Rows.PageAssignmentsSingle | scraper.py:274-281 | a single row is kept, normalised, exactly when it passes the test |
| Rows.PageAssignmentsMembers | scraper.py:272-281 | a tuple is produced exactly when some accepted table row normalises to it |
| Rows.NoValidRows | scraper.py:283-285 | no rows come out exactly when no table row passes the test |
| Browsing.SourceConfigValid | scraper.py:30-34 | the source's constants are usable divisors, and the rotation limit exceeds `max_pages` |
| Browsing.LongBreaksAreSpaced | scraper.py:82 | two long breaks are at least `LONG_BREAK_EVERY` pages apart |
| Browsing.LongBreakInEveryWindow | scraper.py:82 | every run of `LONG_BREAK_EVERY` pages contains a long break |
| Browsing.Navigate | scraper.py:227-240 | the navigation loop ends where `Navigation` says, having used that many clicks |
| Browsing.ReachSpec | scraper.py:229-239 | clicking stops at the target or after the first failed click, with every earlier click successful |
| Browsing.NavigationSpec | scraper.py:227-242 | navigation ends at a position between 1 and the start page, after `position - 1` clicks that succeeded, plus one failed click when it fell short |
| Pagination.PageStep | scraper.py:247-320 | a page that advances moves page, browser position and click count on by one after a successful click |
| Pagination.AfterBatch | scraper.py:288-320 | after a saved batch, advancing moves the page on by one only after a successful click |
| Pagination.FinishPage | scraper.py:296-320 | the duplicate counter, progress update, periodic checkpoint and click change the files as `Resolve` of `AfterBatch` says |
| Pagination.ScrapePage | scraper.py:247-320 | one pass of the loop changes the files and decides continue or stop as `Resolve` of `PageStep` says |
| Pagination.ScrapeWithSession | scraper.py:183-322 | a whole session returns and writes what `SessionRun` says |
| CallLog.PeriodicOnlyMeans | scraper.py:288-311 | in a log of periodic saves only, every progress update directly follows the upsert of a non-empty batch; every save directly follows such an upsert and the progress update of a page divisible by `SAVE_CHECKPOINT_EVERY`, with its page and record count; and every such update is followed by one |
| CallLog.LastSavedPeriodic | scraper.py:309-310 | a log of periodic saves leaves the checkpoint as it was or at a multiple of the interval for this session |
| CallLog.UnderLimitMeans | scraper.py:297-301 | no page before the stop brought the run of zero-addition pages to the limit |
| SessionFacts.BatchLog | scraper.py:288-320 | after a batch: the totals grow by the counts, the duplicate counter is updated, a duplicate stop happens exactly when that page added nothing and the run reached the limit, and the calls made are logged |
| SessionFacts.StepLog | scraper.py:247-320 | every pass satisfies its pass facts: what it read, its calls, and why it ended, each stop exactly when its condition holds |
| SessionFacts.PageLogCounts | scraper.py:288-311 | a pass's calls add up to its batch counts; progress is recorded only for an advancing or last page; only a duplicate stop ends on an upsert |
| SessionFacts.RecordedPassCounts | scraper.py:288-310 | a recorded pass upserts once, updates progress for its page and does not end on the upsert |
| SessionFacts.BatchesOfPass | scraper.py:288 | a pass that reached the upsert sends exactly its batch |
| SessionFacts.PageLogCheckpoints | scraper.py:250-311 | "rotate" and "blocked" save exactly one checkpoint at the current page and totals; every other checkpoint of a pass comes right after the upsert of its batch and its progress update |
| SessionFacts.TraceSpec | scraper.py:247-322 | the session loop is its trace: passes chain; each pass rotates exactly when the session count passes the limit, and below it is "blocked" exactly on an empty Cloudflare table, "completed" without writing exactly on an empty plain table or a table with no valid row, an exception exactly on a failed extraction, and stops after its upsert on a failed click exactly when the click fails; counts and reads hold, and the outcome is the trace's ending |
| SessionFacts.SessionLogged | scraper.py:247-322 | the session's writes are those of its call log |
| SessionFacts.TraceCallsOfSession | scraper.py:247-322 | every call of a session is an upsert or names its own session |
| SessionFacts.TraceTotals | scraper.py:288-291 | the returned totals are the starting totals plus the upserts' counts |
| SessionFacts.TracePages | scraper.py:242-322 | progress pages run consecutively from the start page; the returned page is the next one, or the last one on "completed" |
| SessionFacts.TraceCheckpoints | scraper.py:247-311 | a "blocked" or "rotate" exit ends on its exit checkpoint; every other checkpoint is periodic and follows the upsert of its page's batch and the progress update |
| SessionFacts.TraceStopCauses | scraper.py:247-322 | every page before the stop page showed a table with a valid row below the session limit and its click succeeded, so the session stops at the first page that gives a reason to, and that page decides the outcome: past `max_pages` "completed"; over the session limit "rotate"; on an empty Cloudflare table "blocked"; otherwise "completed" on an empty table, a table with no valid row, a duplicate stop or a failed click; an exception exactly on a failed extraction below both limits |
| SessionFacts.TraceBatches | scraper.py:259-288 | the i-th batch is the filtered, non-empty table at browser position start + i |
| SessionFacts.TraceDuplicates | scraper.py:296-301 | a session ending on an upsert stopped on a no-new page that brought the run to the limit |
| SessionFacts.TraceNoEarlyStop | scraper.py:296-303 | no page before the last reached the duplicate limit |
| SessionRuns.RunCalls | scraper.py:183-322 | a session only appends its own calls, and the store grows by the records its upserts added |
| SessionRuns.RunTotals | scraper.py:288-291 | a returned session's totals are the starting totals plus every upsert's counts |
| SessionRuns.RunPages | scraper.py:242-322 | progress is recorded for `start_page`, `start_page + 1`, ...; the returned page follows the last recorded one, or equals it on "completed"; past `max_pages` it is always "completed" |
| SessionRuns.RunCheckpoints | scraper.py:250-311 | "blocked" and "rotate" leave a checkpoint at the returned page and records, written last; every other save is periodic and comes right after the upsert of a non-empty batch and the progress update of its page, so "completed" and exceptions leave the old or a periodic checkpoint |
| SessionRuns.RunStopCauses | scraper.py:195-322 | setup failure raises; otherwise every page before the stop page showed a table with a valid row below the session limit and its click succeeded, so the session stops at the first page that gives a reason to, and that page decides the outcome: past `max_pages` "completed"; over the session limit "rotate"; on an empty Cloudflare table "blocked"; otherwise "completed" on an empty table, a table with no valid row, a duplicate stop or a failed click; an exception is an extraction fault below both limits |
| SessionRuns.RunBatches | scraper.py:259-288 | each upserted batch is the filtered, non-empty table at successive browser positions |
| SessionRuns.RunDuplicates | scraper.py:296-303 | ending on an upsert means "completed" after a no-new page brought the counter to the limit; no earlier page reached it |
| SessionRuns.RotationNeverFires | scraper.py:247-254 | a session whose page range fits the rotation limit never rotates |
| SessionRuns.SourceSessionsNeverRotate | scraper.py:244-254 | with `max_pages` 1000 and the limit 10000, rotation never fires |
| Orchestration.ScrapeAll | scraper.py:329-402 | the whole run returns and writes what `ScrapeAllSpec` says |
| Orchestration.CompletionFinalises | database.py:147-161 | after completing, the lookup finds the same entry, now with the status and counters; store and checkpoint are untouched |
| Orchestration.BeginFacts | scraper.py:338-354 | fresh: empty store, no checkpoint, a new running session at page 1. Resume: nothing on disk changes; the checkpoint's session, page + 1, its record count, zero added and updated. No checkpoint: a new session at page 1 |
| Orchestration.RoundsEnd | scraper.py:360-393 | "completed" leaves no checkpoint and the entry completed with the final counters; an exception leaves a checkpoint at the failing session's start page and records, and the entry failed |
| Orchestration.RoundsAdvance | scraper.py:360-372 | a run ends on or after the page it started from |
| Orchestration.RoundsPages | scraper.py:360-378 | across the rounds of one run, each rotation or block goes on from the returned page under the same session id: the calls only extend the log and all belong to the session, the recorded pages are the start page, the next, and so on with none skipped or repeated, and an interrupted run stands at the page after the last recorded one |
| Orchestration.RoundsTotals | scraper.py:360-393 | without an exception the run only appends calls, its totals are the start totals plus every upsert's counts, and the store grew by exactly the reported additions |
| Orchestration.FreshRunHoldsWhatItAdded | scraper.py:329-402 | a fresh run that finishes leaves exactly `total_added` records and no checkpoint |
| Orchestration.ResumeAfterAbort | scraper.py:347-386 | after an exception the next run resumes the same session on the page after the failing session's start page, with its record count back in the totals |
| Orchestration.NextRunAfterFinish | scraper.py:347-392 | after a finished run the next incremental run opens a new session at page 1 with zero totals |
| Orchestration.ResumeSkipsExitPage | scraper.py:250-268 | "blocked" and "rotate" record progress only below the returned page, yet the checkpoint names that page, so a restart begins one page later |

## Left out

- Playwright and the injected JavaScript are outside the model. This covers browser creation, `extract_table_data`, `click_next_page` and the never-called `navigate_to_page`. The `Browser` oracle stands in for them.
- The setup of `scrape_with_session` is the single flag `setupFails`. This covers loading the search page, the Cloudflare wait and its exception (scraper.py:185-225).
- Sleeps, random delay lengths and cooldowns are time and randomness. Only the long-break predicate is modelled.
- JSON encoding, the filesystem calls and real timestamps are left out. Files are `JsonFile` values and times are clock readings.
- `main`, `argparse`, every `print`, the `DATA_DIR` choice, `init_database` and `get_all_assignments` are entry-point and reporting code. They are not part of this model.
- KeyError paths on hand-edited JSON are not modelled. The documents are assumed to hold the keys this program writes.
- The digit test is ASCII only. Python's `isdigit` also accepts other Unicode digits, and the model does not. For some of those, such as "²", `int()` (scraper.py:276) raises ValueError, and `scrape_all` turns that into a failed session (scraper.py:380-386); the model simply drops such a row instead.
- Exceptions come only from setup and from a failed extraction. Errors raised by the storage calls or the clicks are not modelled.
- The `resume` parameter of `scrape_all` is not modelled, because the code never reads it.
- Termination of `scrape_all`'s loop is not claimed. A run that never returns "completed" can loop forever, so the model gives the run a finite list of browser sessions and ends with `Interrupted` when the list runs out, as if the process were stopped.
- The call log is ghost. It exists only to state properties about the order of the storage calls.
- RoundsEnd: the status claim is conditional on the ledger holding an entry with the session's id. A resumed checkpoint can name a session the history file no longer has, and then `complete_scrape_session` changes nothing.
- RoundsTotals: it says nothing about the totals after an exception. Those are the totals from before the failing session, while that session's upserts are already in the store.
