/**
 * The JSON storage module: the three files (assignments, session history,
 * checkpoint) as one disk state, the effect of each storage call on it, and
 * the `Store` object whose methods perform those calls in place.
 */
module Database {
  import opened Wrappers
  import opened Records
  import RecordStore
  import Ledger
  import Checkpoint

  /** Successive readings of `datetime.now()`: reading number `i` is `clock(i)`. */
  type Clock = nat -> Time

  /** One storage call as the caller made it, with what it returned. */
  datatype Call =
    | ClearedAssignments
    | Upserted(batch: seq<Row>, added: nat, updated: nat)
    | SessionStarted(id: int)
    | SessionUpdated(id: int, progress: Progress)
    | SessionCompleted(id: int, progress: Progress, status: Status)
    | CheckpointSaved(sessionId: int, lastPage: int, records: int)
    | CheckpointCleared

  /**
   * The three files, the number of clock readings taken so far, and the
   * calls made so far, oldest first.
   */
  datatype Disk = Disk(
    assignments: JsonFile<AssignmentsDoc>,
    history: JsonFile<seq<Session>>,
    checkpoint: JsonFile<CheckpointDoc>,
    ticks: nat,
    calls: seq<Call>)

  /** The assignments document `get_assignments_data` falls back to. */
  function EmptyStore(now: Time): AssignmentsDoc
  {
    AssignmentsDoc([], Metadata(now, None, None))
  }

  /** The records `get_assignments_data` would find. */
  function StoredAssignments(f: JsonFile<AssignmentsDoc>): seq<Assignment>
  {
    match f
    case Parsed(doc) => doc.assignments
    case _ => []
  }

  /** `get_assignment_count`. */
  function AssignmentCount(d: Disk): nat
  {
    |StoredAssignments(d.assignments)|
  }

  /** The session history `_load_json` yields, `[]` by default. */
  function Sessions(d: Disk): seq<Session>
  {
    LoadJson(d.history, [])
  }

  /** `get_assignment_count` changes nothing but takes one reading, for the default document. */
  function AfterCount(d: Disk): Disk
  {
    d.(ticks := d.ticks + 1)
  }

  /** `get_checkpoint`. */
  function CurrentCheckpoint(d: Disk): Option<Position>
  {
    Checkpoint.Read(d.checkpoint)
  }

  function AfterClearAssignments(d: Disk, clock: Clock): Disk
  {
    d.(assignments := Parsed(EmptyStore(clock(d.ticks))),
       checkpoint := Checkpoint.Cleared(d.checkpoint),
       ticks := d.ticks + 1,
       calls := d.calls + [ClearedAssignments])
  }

  datatype UpsertOutcome = UpsertOutcome(disk: Disk, added: nat, updated: nat)

  /**
   * `upsert_assignments_batch`: one reading for the default document, one
   * for `now`; the merged records are saved with refreshed metadata.
   */
  function AfterUpsert(d: Disk, clock: Clock, batch: seq<Row>): UpsertOutcome
  {
    var data := LoadJson(d.assignments, EmptyStore(clock(d.ticks)));
    var now := clock(d.ticks + 1);
    var u := RecordStore.Upsert(data.assignments, batch, now);
    var saved := AssignmentsDoc(u.records, data.metadata.(lastUpdated := Some(now), totalCount := Some(|u.records|)));
    UpsertOutcome(
      d.(assignments := Parsed(saved), ticks := d.ticks + 2, calls := d.calls + [Upserted(batch, u.added, u.updated)]),
      u.added, u.updated)
  }

  /** `start_scrape_session`, with the id it returns. */
  function AfterStart(d: Disk, clock: Clock): (Disk, int)
  {
    var (sessions, id) := Ledger.Started(Sessions(d), clock(d.ticks));
    (d.(history := Parsed(sessions), ticks := d.ticks + 1, calls := d.calls + [SessionStarted(id)]), id)
  }

  /** `update_scrape_session`. */
  function AfterUpdate(d: Disk, id: int, p: Progress): Disk
  {
    d.(history := Parsed(Ledger.EditFirst(Sessions(d), id, Ledger.Progressed(p))),
       calls := d.calls + [SessionUpdated(id, p)])
  }

  /** `complete_scrape_session`: the clock is read only when a session matches. */
  function AfterComplete(d: Disk, clock: Clock, id: int, p: Progress, status: Status): Disk
  {
    var sessions := Sessions(d);
    var ticks := if Ledger.FirstWithId(sessions, id).Some? then d.ticks + 1 else d.ticks;
    d.(history := Parsed(Ledger.EditFirst(sessions, id, Ledger.Finalised(p, status, clock(d.ticks)))),
       ticks := ticks,
       calls := d.calls + [SessionCompleted(id, p, status)])
  }

  /** `save_checkpoint`. */
  function AfterSaveCheckpoint(d: Disk, clock: Clock, sessionId: int, lastPage: int, records: int): Disk
  {
    d.(checkpoint := Checkpoint.Written(sessionId, lastPage, records, clock(d.ticks)),
       ticks := d.ticks + 1,
       calls := d.calls + [CheckpointSaved(sessionId, lastPage, records)])
  }

  /** `clear_checkpoint`. */
  function AfterClearCheckpoint(d: Disk): Disk
  {
    d.(checkpoint := Checkpoint.Cleared(d.checkpoint), calls := d.calls + [CheckpointCleared])
  }

  // ---------------------------------------------------------------------
  // Properties of the storage calls

  /** The merge an upsert performs: the stored records merged with the batch at the second reading. */
  function Merged(d: Disk, clock: Clock, batch: seq<Row>): RecordStore.UpsertResult
  {
    RecordStore.Upsert(StoredAssignments(d.assignments), batch, clock(d.ticks + 1))
  }

  /** An upsert saves the merged records and returns the merge's counts. */
  lemma UpsertSavesMerge(d: Disk, clock: Clock, batch: seq<Row>)
    ensures AfterUpsert(d, clock, batch).added == Merged(d, clock, batch).added
    ensures AfterUpsert(d, clock, batch).updated == Merged(d, clock, batch).updated
    ensures StoredAssignments(AfterUpsert(d, clock, batch).disk.assignments) == Merged(d, clock, batch).records
  {
    if d.assignments.Parsed? {
      assert LoadJson(d.assignments, EmptyStore(clock(d.ticks))) == d.assignments.value;
    }
  }

  /** An upsert stamps the metadata and leaves the other two files alone. */
  lemma UpsertStampsMetadata(d: Disk, clock: Clock, batch: seq<Row>)
    ensures AfterUpsert(d, clock, batch).disk.assignments.Parsed?
    ensures AfterUpsert(d, clock, batch).disk.assignments.value.metadata.totalCount
      == Some(|Merged(d, clock, batch).records|)
    ensures AfterUpsert(d, clock, batch).disk.assignments.value.metadata.lastUpdated == Some(clock(d.ticks + 1))
    ensures AfterUpsert(d, clock, batch).disk.history == d.history
    ensures AfterUpsert(d, clock, batch).disk.checkpoint == d.checkpoint
    ensures AfterUpsert(d, clock, batch).disk.ticks == d.ticks + 2
  {
    if d.assignments.Parsed? {
      assert LoadJson(d.assignments, EmptyStore(clock(d.ticks))) == d.assignments.value;
    }
  }

  /**
   * After an upsert the store holds exactly `added` more records, the counts
   * cover the batch, `total_count` is the new length, and the other two
   * files are untouched.
   */
  lemma UpsertBookkeeping(d: Disk, clock: Clock, batch: seq<Row>)
    ensures var o := AfterUpsert(d, clock, batch);
      && o.added + o.updated == |batch|
      && AssignmentCount(o.disk) == AssignmentCount(d) + o.added
      && o.disk.assignments.Parsed?
      && o.disk.assignments.value.metadata.totalCount == Some(AssignmentCount(o.disk))
      && o.disk.assignments.value.metadata.lastUpdated == Some(clock(d.ticks + 1))
      && o.disk.history == d.history && o.disk.checkpoint == d.checkpoint
  {
    UpsertSavesMerge(d, clock, batch);
    UpsertStampsMetadata(d, clock, batch);
    RecordStore.UpsertCounts(StoredAssignments(d.assignments), batch, clock(d.ticks + 1));
  }

  /** An upsert keeps the call signs of the store pairwise distinct. */
  lemma UpsertKeepsKeysDistinct(d: Disk, clock: Clock, batch: seq<Row>)
    requires RecordStore.Distinct(RecordStore.CallSigns(StoredAssignments(d.assignments)))
    ensures RecordStore.Distinct(RecordStore.CallSigns(StoredAssignments(AfterUpsert(d, clock, batch).disk.assignments)))
  {
    var m := Merged(d, clock, batch);
    assert RecordStore.Distinct(RecordStore.CallSigns(m.records)) by {
      RecordStore.UpsertKeys(StoredAssignments(d.assignments), batch, clock(d.ticks + 1));
    }
    UpsertSavesMerge(d, clock, batch);
  }

  /** Upserting the same batch again adds nothing and counts every row as updated. */
  lemma UpsertTwiceAddsNothing(d: Disk, clock: Clock, batch: seq<Row>)
    ensures var first := AfterUpsert(d, clock, batch);
      var second := AfterUpsert(first.disk, clock, batch);
      second.added == 0 && second.updated == |batch| && AssignmentCount(second.disk) == AssignmentCount(first.disk)
  {
    var first := AfterUpsert(d, clock, batch);
    UpsertSavesMerge(d, clock, batch);
    UpsertStampsMetadata(d, clock, batch);
    UpsertSavesMerge(first.disk, clock, batch);
    var u := RecordStore.Upsert(StoredAssignments(d.assignments), batch, clock(d.ticks + 1));
    RecordStore.UpsertIdempotent(StoredAssignments(d.assignments), batch, clock(d.ticks + 1), clock(d.ticks + 3));
    RecordStore.UpsertCounts(u.records, batch, clock(d.ticks + 3));
  }

  /** `clear_assignments` leaves an empty store and no checkpoint. */
  lemma ClearLeavesNothing(d: Disk, clock: Clock)
    ensures AssignmentCount(AfterClearAssignments(d, clock)) == 0
    ensures CurrentCheckpoint(AfterClearAssignments(d, clock)) == None
  {
  }

  /** `get_checkpoint` after `save_checkpoint(s, p, r)` gives `(s, p, r)`; after `clear_checkpoint`, nothing. */
  lemma CheckpointRoundTrip(d: Disk, clock: Clock, sessionId: int, lastPage: int, records: int)
    ensures CurrentCheckpoint(AfterSaveCheckpoint(d, clock, sessionId, lastPage, records))
      == Some(Position(sessionId, lastPage, records))
    ensures CurrentCheckpoint(AfterClearCheckpoint(d)) == None
  {
    Checkpoint.ReadAfterSave(sessionId, lastPage, records, clock(d.ticks));
  }

  /**
   * The session calls keep the ledger numbered `1..n`; a start appends one
   * running entry whose id is new; update and complete keep its length.
   */
  lemma LedgerCallsKeepNumbering(d: Disk, clock: Clock, id: int, p: Progress, status: Status)
    requires Ledger.Numbered(Sessions(d))
    ensures var (s, newId) := AfterStart(d, clock);
      && Ledger.Numbered(Sessions(s)) && |Sessions(s)| == |Sessions(d)| + 1
      && newId == |Sessions(d)| + 1
      && (forall j :: 0 <= j < |Sessions(d)| ==> Sessions(d)[j].id != newId)
    ensures Ledger.Numbered(Sessions(AfterUpdate(d, id, p)))
      && |Sessions(AfterUpdate(d, id, p))| == |Sessions(d)|
    ensures Ledger.Numbered(Sessions(AfterComplete(d, clock, id, p, status)))
      && |Sessions(AfterComplete(d, clock, id, p, status))| == |Sessions(d)|
  {
    Ledger.StartAppendsOne(Sessions(d), clock(d.ticks));
    Ledger.EditTouchesFirstMatchOnly(Sessions(d), id, Ledger.Progressed(p));
    Ledger.EditTouchesFirstMatchOnly(Sessions(d), id, Ledger.Finalised(p, status, clock(d.ticks)));
  }

  // ---------------------------------------------------------------------
  // The storage module as an object

  /** The three files and the clock, which every storage function reads and rewrites whole. */
  class Store {
    const clock: Clock
    var assignmentsFile: JsonFile<AssignmentsDoc>
    var historyFile: JsonFile<seq<Session>>
    var checkpointFile: JsonFile<CheckpointDoc>
    var ticks: nat
    ghost var calls: seq<Call>

    ghost function Snapshot(): Disk
      reads this
    {
      Disk(assignmentsFile, historyFile, checkpointFile, ticks, calls)
    }

    constructor (clock: Clock, assignments: JsonFile<AssignmentsDoc>, history: JsonFile<seq<Session>>,
                 checkpoint: JsonFile<CheckpointDoc>)
      ensures this.clock == clock
      ensures Snapshot() == Disk(assignments, history, checkpoint, 0, [])
    {
      this.clock := clock;
      assignmentsFile, historyFile, checkpointFile := assignments, history, checkpoint;
      ticks, calls := 0, [];
    }

    /** `datetime.now()`. */
    method Now() returns (t: Time)
      modifies this`ticks
      ensures t == clock(old(ticks)) && ticks == old(ticks) + 1
    {
      t := clock(ticks);
      ticks := ticks + 1;
    }

    method ClearAssignments()
      modifies this
      ensures Snapshot() == AfterClearAssignments(old(Snapshot()), clock)
    {
      var now := Now();
      assignmentsFile := Parsed(EmptyStore(now));
      if !checkpointFile.Absent? {
        checkpointFile := Absent;
      }
      calls := calls + [ClearedAssignments];
    }

    method UpsertAssignmentsBatch(batch: seq<Row>) returns (added: nat, updated: nat)
      modifies this
      ensures UpsertOutcome(Snapshot(), added, updated) == AfterUpsert(old(Snapshot()), clock, batch)
    {
      var fallback := Now();
      var data := LoadJson(assignmentsFile, EmptyStore(fallback));
      var now := Now();
      var records;
      records, added, updated := RecordStore.UpsertRecords(data.assignments, batch, now);
      var metadata := data.metadata.(lastUpdated := Some(now), totalCount := Some(|records|));
      assignmentsFile := Parsed(AssignmentsDoc(records, metadata));
      calls := calls + [Upserted(batch, added, updated)];
    }

    method GetAssignmentCount() returns (n: nat)
      modifies this`ticks
      ensures n == AssignmentCount(old(Snapshot()))
      ensures Snapshot() == AfterCount(old(Snapshot()))
    {
      var fallback := Now();
      var data := LoadJson(assignmentsFile, EmptyStore(fallback));
      n := |data.assignments|;
    }

    method StartScrapeSession() returns (id: int)
      modifies this
      ensures (Snapshot(), id) == AfterStart(old(Snapshot()), clock)
    {
      var history := LoadJson(historyFile, []);
      id := |history| + 1;
      var now := Now();
      historyFile := Parsed(history + [Session(id, now, Running, None, None)]);
      calls := calls + [SessionStarted(id)];
    }

    method UpdateScrapeSession(id: int, found: int, added: int, updated: int, lastPage: int)
      modifies this
      ensures Snapshot() == AfterUpdate(old(Snapshot()), id, Progress(found, added, updated, lastPage))
    {
      var history := LoadJson(historyFile, []);
      var p := Progress(found, added, updated, lastPage);
      var k := Ledger.FindSession(history, id);
      if k.Some? {
        history := history[k.value := Ledger.Apply(history[k.value], Ledger.Progressed(p))];
      }
      historyFile := Parsed(history);
      calls := calls + [SessionUpdated(id, p)];
    }

    method CompleteScrapeSession(id: int, found: int, added: int, updated: int, lastPage: int, status: Status)
      modifies this
      ensures Snapshot() == AfterComplete(old(Snapshot()), clock, id, Progress(found, added, updated, lastPage), status)
    {
      var history := LoadJson(historyFile, []);
      var p := Progress(found, added, updated, lastPage);
      var k := Ledger.FindSession(history, id);
      if k.Some? {
        var now := Now();
        history := history[k.value := Ledger.Apply(history[k.value], Ledger.Finalised(p, status, now))];
      }
      historyFile := Parsed(history);
      calls := calls + [SessionCompleted(id, p, status)];
    }

    method SaveCheckpoint(sessionId: int, lastPage: int, records: int)
      modifies this
      ensures Snapshot() == AfterSaveCheckpoint(old(Snapshot()), clock, sessionId, lastPage, records)
    {
      var now := Now();
      checkpointFile := Parsed(Saved(sessionId, lastPage, records, now));
      calls := calls + [CheckpointSaved(sessionId, lastPage, records)];
    }

    method GetCheckpoint() returns (r: Option<Position>)
      ensures r == CurrentCheckpoint(Snapshot())
    {
      if checkpointFile.Absent? {
        return None;
      }
      var data := LoadJson(checkpointFile, FalsyDoc);
      if data.Saved? {
        return Some(Position(data.sessionId, data.lastPage, data.recordsScraped));
      }
      return None;
    }

    method ClearCheckpoint()
      modifies this
      ensures Snapshot() == AfterClearCheckpoint(old(Snapshot()))
    {
      if !checkpointFile.Absent? {
        checkpointFile := Absent;
      }
      calls := calls + [CheckpointCleared];
    }
  }
}
