/**
 * The entities that the three JSON files of the call-sign store hold:
 * assignment records with their store metadata, scrape sessions, and the
 * checkpoint. A file is modelled by what reading it yields.
 */
module Records {
  import opened Wrappers

  /** A timestamp as `datetime.now().isoformat()` renders it; never interpreted. */
  type Time = string

  /** One normalised table row, the tuple (row_number, holder, call_sign, assign_no, expiry). */
  datatype Row = Row(rowNumber: int, holder: string, callSign: string, assignNo: string, expiry: string)

  /** One stored assignment record; `callSign` is its key. */
  datatype Assignment = Assignment(
    rowNumber: int,
    holder: string,
    callSign: string,
    assignNo: string,
    expiry: string,
    firstSeenAt: Time,
    lastUpdatedAt: Time)

  /** The `metadata` object of the assignments file. */
  datatype Metadata = Metadata(createdAt: Time, lastUpdated: Option<Time>, totalCount: Option<int>)

  /** The whole assignments file: `{"assignments": [...], "metadata": {...}}`. */
  datatype AssignmentsDoc = AssignmentsDoc(assignments: seq<Assignment>, metadata: Metadata)

  datatype Status = Running | Completed | Failed

  /** The four progress keys a session update merges in. */
  datatype Progress = Progress(recordsFound: int, recordsAdded: int, recordsUpdated: int, lastPage: int)

  /** One entry of the session history; keys not yet written are `None`. */
  datatype Session = Session(
    id: int,
    startedAt: Time,
    status: Status,
    completedAt: Option<Time>,
    progress: Option<Progress>)

  /**
   * The decoded checkpoint file: either a value JSON treats as false
   * (`{}`, `null`, ...) or the record `save_checkpoint` writes.
   */
  datatype CheckpointDoc =
    | FalsyDoc
    | Saved(sessionId: int, lastPage: int, recordsScraped: int, updatedAt: Time)

  /** The triple `get_checkpoint` returns. */
  datatype Position = Position(sessionId: int, lastPage: int, recordsScraped: int)

  /** A JSON file as reading it finds it: missing, not decodable, or decoded to a value. */
  datatype JsonFile<T> = Absent | Malformed | Parsed(value: T)

  /** `_load_json`: the decoded value, or the default when the file is missing or malformed. */
  function LoadJson<T>(f: JsonFile<T>, default: T): (r: T)
    ensures f.Parsed? ==> r == f.value
    ensures !f.Parsed? ==> r == default
  {
    match f
    case Parsed(v) => v
    case _ => default
  }

  /** A malformed file reads exactly like a missing one. */
  lemma MalformedReadsAsAbsent<T>(default: T)
    ensures LoadJson(Malformed, default) == LoadJson(Absent, default) == default
  {
  }
}
