/**
 * The checkpoint file (`save_checkpoint`, `get_checkpoint`,
 * `clear_checkpoint`): at most one resume position.
 */
module Checkpoint {
  import opened Wrappers
  import opened Records

  /** The file `save_checkpoint` writes. */
  function Written(sessionId: int, lastPage: int, recordsScraped: int, now: Time): JsonFile<CheckpointDoc>
  {
    Parsed(Saved(sessionId, lastPage, recordsScraped, now))
  }

  /**
   * `get_checkpoint`: nothing when the file is missing, when it does not
   * decode (the default `None` is falsy) or when it decodes to a falsy value.
   */
  function Read(f: JsonFile<CheckpointDoc>): Option<Position>
  {
    match f
    case Absent => None
    case Malformed => None
    case Parsed(FalsyDoc) => None
    case Parsed(Saved(sid, page, records, _)) => Some(Position(sid, page, records))
  }

  /** `clear_checkpoint` (and the second half of `clear_assignments`): the file is gone. */
  function Cleared(f: JsonFile<CheckpointDoc>): JsonFile<CheckpointDoc>
  {
    Absent
  }

  /** Reading back a saved checkpoint gives the triple that was saved, whatever the time. */
  lemma ReadAfterSave(sessionId: int, lastPage: int, recordsScraped: int, now: Time)
    ensures Read(Written(sessionId, lastPage, recordsScraped, now)) == Some(Position(sessionId, lastPage, recordsScraped))
  {
  }

  /** After clearing, and for malformed or falsy content, there is no checkpoint. */
  lemma NothingToReadAfterClear(f: JsonFile<CheckpointDoc>)
    ensures Read(Cleared(f)) == None
    ensures Read(Malformed) == None && Read(Parsed(FalsyDoc)) == None
  {
  }

  /** `Read` finds a position exactly when a saved record is on disk. */
  lemma ReadFindsOnlySaved(f: JsonFile<CheckpointDoc>)
    ensures Read(f).Some? <==> f.Parsed? && f.value.Saved?
  {
  }
}
