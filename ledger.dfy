/**
 * The session history (`start_scrape_session`, `update_scrape_session`,
 * `complete_scrape_session`): an append-only list of sessions, edited in
 * place by id.
 */
module Ledger {
  import opened Wrappers
  import opened Records

  /** The ledger as `start_scrape_session` numbers it: entry `i` has id `i + 1`. */
  ghost predicate Numbered(sessions: seq<Session>)
  {
    forall i :: 0 <= i < |sessions| ==> sessions[i].id == i + 1
  }

  /** The ledger after `start_scrape_session`, with the id it returns. */
  function Started(sessions: seq<Session>, now: Time): (r: (seq<Session>, int))
  {
    var id := |sessions| + 1;
    (sessions + [Session(id, now, Running, None, None)], id)
  }

  /** What `session.update(...)` merges into the matching entry. */
  datatype Edit =
    | Progressed(progress: Progress)
    | Finalised(progress: Progress, status: Status, at: Time)

  function Apply(s: Session, e: Edit): Session
  {
    match e
    case Progressed(p) => s.(progress := Some(p))
    case Finalised(p, status, at) => s.(progress := Some(p), status := status, completedAt := Some(at))
  }

  /** The position of the first session with this id, if any. */
  function FirstWithId(sessions: seq<Session>, id: int): (r: Option<nat>)
    ensures r.Some? ==> r.value < |sessions| && sessions[r.value].id == id
    ensures r.Some? ==> forall j :: 0 <= j < r.value ==> sessions[j].id != id
    ensures r.None? <==> forall j :: 0 <= j < |sessions| ==> sessions[j].id != id
  {
    if sessions == [] then None
    else if sessions[0].id == id then Some(0)
    else
      match FirstWithId(sessions[1..], id)
      case None => None
      case Some(k) => Some(k + 1)
  }

  /** The ledger after merging `e` into the first session with this id; unchanged if there is none. */
  function EditFirst(sessions: seq<Session>, id: int, e: Edit): seq<Session>
  {
    match FirstWithId(sessions, id)
    case None => sessions
    case Some(k) => sessions[k := Apply(sessions[k], e)]
  }

  /** The search of `for session in history["sessions"]: if session["id"] == session_id: ...; break`. */
  method FindSession(sessions: seq<Session>, id: int) returns (r: Option<nat>)
    ensures r == FirstWithId(sessions, id)
  {
    var i := 0;
    while i < |sessions|
      invariant 0 <= i <= |sessions|
      invariant forall j :: 0 <= j < i ==> sessions[j].id != id
    {
      if sessions[i].id == id {
        FirstMatchIsUnique(sessions, id, i);
        return Some(i);
      }
      i := i + 1;
    }
    r := None;
  }

  lemma FirstMatchIsUnique(sessions: seq<Session>, id: int, i: nat)
    requires i < |sessions| && sessions[i].id == id
    requires forall j :: 0 <= j < i ==> sessions[j].id != id
    ensures FirstWithId(sessions, id) == Some(i)
  {
    var r := FirstWithId(sessions, id);
    assert r.Some?;
    assert !(r.value < i) && !(r.value > i);
  }

  // ---------------------------------------------------------------------
  // Properties

  /** Starting appends exactly one running entry, with a fresh id, and leaves the rest alone. */
  lemma StartAppendsOne(sessions: seq<Session>, now: Time)
    ensures var (r, id) := Started(sessions, now);
      && id == |sessions| + 1
      && |r| == |sessions| + 1 && r[..|sessions|] == sessions
      && r[|sessions|].id == id && r[|sessions|].status == Running && r[|sessions|].startedAt == now
      && r[|sessions|].completedAt.None? && r[|sessions|].progress.None?
      && (Numbered(sessions) ==> Numbered(r) && forall j :: 0 <= j < |sessions| ==> sessions[j].id != id)
  {
  }

  /**
   * An edit changes at most the first entry with the id, keeps the length
   * and every id, and leaves the ledger as it was when no entry matches.
   */
  lemma EditTouchesFirstMatchOnly(sessions: seq<Session>, id: int, e: Edit)
    ensures var r := EditFirst(sessions, id, e);
      && |r| == |sessions|
      && (forall j :: 0 <= j < |r| ==> r[j].id == sessions[j].id && r[j].startedAt == sessions[j].startedAt)
      && (FirstWithId(sessions, id).None? ==> r == sessions)
      && (FirstWithId(sessions, id).Some? ==>
            var k := FirstWithId(sessions, id).value;
            r[k] == Apply(sessions[k], e) && forall j :: 0 <= j < |r| && j != k ==> r[j] == sessions[j])
      && (Numbered(sessions) ==> Numbered(r))
  {
  }

  /** A progress update never touches a session's status or completion time. */
  lemma ProgressKeepsStatus(sessions: seq<Session>, id: int, p: Progress)
    ensures var r := EditFirst(sessions, id, Progressed(p));
      forall j :: 0 <= j < |r| ==>
        r[j].status == sessions[j].status && r[j].completedAt == sessions[j].completedAt
  {
  }

  /** Completing sets the status and the completion time of the first session with the id. */
  lemma FinaliseSetsStatus(sessions: seq<Session>, id: int, p: Progress, status: Status, at: Time)
    ensures var r := EditFirst(sessions, id, Finalised(p, status, at));
      FirstWithId(sessions, id).Some? ==>
        var k := FirstWithId(sessions, id).value;
        r[k].status == status && r[k].completedAt == Some(at) && r[k].progress == Some(p)
  {
  }

  /** Completing twice: the second call wins. */
  lemma FinaliseTwiceLastWins(sessions: seq<Session>, id: int, e1: Edit, p: Progress, status: Status, at: Time)
    ensures EditFirst(EditFirst(sessions, id, e1), id, Finalised(p, status, at))
      == EditFirst(sessions, id, Finalised(p, status, at))
  {
    var once := EditFirst(sessions, id, e1);
    assert forall j :: 0 <= j < |once| ==> once[j].id == sessions[j].id;
    assert FirstWithId(once, id) == FirstWithId(sessions, id) by {
      FirstWithIdDependsOnIds(sessions, once, id);
    }
  }

  lemma {:induction false} FirstWithIdDependsOnIds(a: seq<Session>, b: seq<Session>, id: int)
    requires |a| == |b| && forall j :: 0 <= j < |a| ==> a[j].id == b[j].id
    ensures FirstWithId(a, id) == FirstWithId(b, id)
  {
    if a != [] {
      FirstWithIdDependsOnIds(a[1..], b[1..], id);
    }
  }
}
