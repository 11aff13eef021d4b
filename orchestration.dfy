/**
 * `scrape_all`: pick the session and the start page (a fresh run, a
 * resume from the checkpoint, or a new session), run browser sessions
 * one after another until one finishes, and close the run: on success
 * clear the checkpoint and mark the session completed, on an exception
 * checkpoint the page the failing session started from and mark the
 * session failed.
 */
module Orchestration {
  import opened Wrappers
  import opened Records
  import opened Browsing
  import opened Database
  import opened Pagination
  import opened CallLog
  import opened SessionFacts
  import opened SessionRuns
  import Ledger

  /** The session a run works under, the page it starts from and the totals it starts with. */
  datatype Start = Start(sid: int, page: int, totals: Totals)

  /**
   * The opening of `scrape_all`: a fresh run empties the store and opens
   * a session at page 1; otherwise a checkpoint resumes its session on
   * the page after the one it names, with its record count, and without
   * one a new session starts at page 1.
   */
  function Begin(d: Disk, clock: Clock, freshRun: bool): (Disk, Start)
  {
    if freshRun then
      var (d1, id) := AfterStart(AfterClearAssignments(d, clock), clock);
      (d1, Start(id, 1, Totals(0, 0, 0)))
    else
      match CurrentCheckpoint(d)
      case Some(p) => (d, Start(p.sessionId, p.lastPage + 1, Totals(0, 0, p.recordsScraped)))
      case None =>
        var (d1, id) := AfterStart(d, clock);
        (d1, Start(id, 1, Totals(0, 0, 0)))
  }

  /**
   * How a run ends: "completed" after a session returned it, re-raised
   * after a session raised, or still going when no browser session is
   * left to run (the process was stopped from outside).
   */
  datatype RunResult =
    | Finished(page: int, totals: Totals)
    | Aborted(page: int, totals: Totals)
    | Interrupted(page: int, totals: Totals)

  /** The exception handler: a checkpoint at the page the session started from, the session marked failed. */
  function Abort(d: Disk, clock: Clock, sid: int, page: int, t: Totals): Disk
  {
    AfterComplete(AfterSaveCheckpoint(d, clock, sid, page, t.records), clock, sid, ProgressAt(t, page), Failed)
  }

  /** After the loop: clear the checkpoint, mark the session completed, read the store size for the summary. */
  function Finish(d: Disk, clock: Clock, sid: int, page: int, t: Totals): Disk
  {
    AfterCount(AfterComplete(AfterClearCheckpoint(d), clock, sid, ProgressAt(t, page), Completed))
  }

  /**
   * `while status not in ["completed", "blocked"]`, one browser session
   * per round: "blocked" and "rotate" set the status back to "running"
   * and the next session goes on from the returned page and totals.
   */
  function Rounds(d: Disk, clock: Clock, browsers: seq<Browser>, cfg: Config, sid: int, page: int, totals: Totals)
    : (RunResult, Disk)
    requires cfg.Valid()
    decreases |browsers|
  {
    if browsers == [] then (Interrupted(page, totals), d)
    else
      var (o, d1) := SessionRun(d, clock, browsers[0], cfg, sid, page, totals);
      match o
      case Raised => (Aborted(page, totals), Abort(d1, clock, sid, page, totals))
      case Returned(p, t, disposition) =>
        if disposition == Done then (Finished(p, t), Finish(d1, clock, sid, p, t))
        else Rounds(d1, clock, browsers[1..], cfg, sid, p, t)
  }

  /** The whole of `scrape_all` on the store, given the browser sessions it will get. */
  function ScrapeAllSpec(d: Disk, clock: Clock, freshRun: bool, browsers: seq<Browser>, cfg: Config)
    : (RunResult, Disk)
    requires cfg.Valid()
  {
    var (d1, s) := Begin(d, clock, freshRun);
    Rounds(d1, clock, browsers, cfg, s.sid, s.page, s.totals)
  }

  method ScrapeAll(db: Store, freshRun: bool, browsers: seq<Browser>, cfg: Config) returns (r: RunResult)
    requires cfg.Valid()
    modifies db
    ensures (r, db.Snapshot()) == ScrapeAllSpec(old(db.Snapshot()), db.clock, freshRun, browsers, cfg)
  {
    var sid: int;
    var page := 1;
    var totals := Totals(0, 0, 0);
    if freshRun {
      db.ClearAssignments();
      sid := db.StartScrapeSession();
    } else {
      var checkpoint := db.GetCheckpoint();
      if checkpoint.Some? {
        sid, page := checkpoint.value.sessionId, checkpoint.value.lastPage + 1;
        totals := Totals(0, 0, checkpoint.value.recordsScraped);
      } else {
        sid := db.StartScrapeSession();
      }
    }
    ghost var goal := ScrapeAllSpec(old(db.Snapshot()), db.clock, freshRun, browsers, cfg);
    var i, done := 0, false;
    while !done
      invariant 0 <= i <= |browsers|
      invariant !done ==> goal == Rounds(db.Snapshot(), db.clock, browsers[i..], cfg, sid, page, totals)
      invariant done ==> goal == (Finished(page, totals), Finish(db.Snapshot(), db.clock, sid, page, totals))
      decreases |browsers| - i, if done then 0 else 1
    {
      if i == |browsers| {
        return Interrupted(page, totals);
      }
      assert browsers[i..][1..] == browsers[i + 1..];
      var o := ScrapeWithSession(db, browsers[i], cfg, sid, page, totals);
      if o.Raised? {
        db.SaveCheckpoint(sid, page, totals.records);
        db.CompleteScrapeSession(sid, totals.records, totals.added, totals.updated, page, Failed);
        return Aborted(page, totals);
      }
      page, totals := o.page, o.totals;
      if o.disposition == Done {
        done := true;
      } else {
        i := i + 1;
      }
    }
    db.ClearCheckpoint();
    db.CompleteScrapeSession(sid, totals.records, totals.added, totals.updated, page, Completed);
    var _ := db.GetAssignmentCount();
    r := Finished(page, totals);
  }

  // ---------------------------------------------------------------------
  // Properties

  /**
   * Completing a session keeps the ledger's ids, so later lookups find
   * the same entry; that entry now carries the status and the progress,
   * and the checkpoint is untouched.
   */
  lemma CompletionFinalises(d: Disk, clock: Clock, sid: int, p: Progress, status: Status)
    ensures var d' := AfterComplete(d, clock, sid, p, status);
      var k := Ledger.FirstWithId(Sessions(d), sid);
      && Ledger.FirstWithId(Sessions(d'), sid) == k
      && (k.Some? ==> Sessions(d')[k.value].status == status && Sessions(d')[k.value].progress == Some(p))
      && CurrentCheckpoint(d') == CurrentCheckpoint(d)
      && AssignmentCount(d') == AssignmentCount(d)
  {
    var s := Sessions(d);
    var e := Ledger.Finalised(p, status, clock(d.ticks));
    Ledger.EditTouchesFirstMatchOnly(s, sid, e);
    Ledger.FirstWithIdDependsOnIds(s, Ledger.EditFirst(s, sid, e), sid);
    Ledger.FinaliseSetsStatus(s, sid, p, status, clock(d.ticks));
  }

  /**
   * The opening: a fresh run leaves an empty store, no checkpoint and one
   * new running session at the end of the ledger; a resume changes
   * nothing on disk and takes the checkpoint's session, the page after
   * its page and its record count; without a checkpoint a new session
   * at page 1 is appended and the store is kept.
   */
  lemma BeginFacts(d: Disk, clock: Clock, freshRun: bool)
    ensures var (d1, s) := Begin(d, clock, freshRun);
      var d0 := if freshRun then AfterClearAssignments(d, clock) else d;
      var cp := CurrentCheckpoint(d);
      && (freshRun ==> AssignmentCount(d1) == 0 && CurrentCheckpoint(d1) == None)
      && (!freshRun && cp.Some? ==>
            d1 == d && s == Start(cp.value.sessionId, cp.value.lastPage + 1, Totals(0, 0, cp.value.recordsScraped)))
      && (freshRun || cp.None? ==>
            && s.page == 1 && s.totals == Totals(0, 0, 0)
            && s.sid == |Sessions(d0)| + 1
            && Sessions(d1) == Sessions(d0) + [Session(s.sid, clock(d0.ticks), Running, None, None)]
            && AssignmentCount(d1) == AssignmentCount(d0)
            && CurrentCheckpoint(d1) == CurrentCheckpoint(d0)
            && (Ledger.Numbered(Sessions(d0)) ==> Ledger.FirstWithId(Sessions(d1), s.sid) == Some(|Sessions(d0)|)))
  {
    var (d1, s) := Begin(d, clock, freshRun);
    var d0 := if freshRun then AfterClearAssignments(d, clock) else d;
    if freshRun || CurrentCheckpoint(d).None? {
      Ledger.StartAppendsOne(Sessions(d0), clock(d0.ticks));
      if Ledger.Numbered(Sessions(d0)) {
        Ledger.FirstMatchIsUnique(Sessions(d1), s.sid, |Sessions(d0)|);
      }
    }
  }

  /**
   * How a run ends on disk: "completed" leaves no checkpoint and the
   * session's ledger entry (when the ledger has one) completed with the
   * final totals and page; an exception leaves a checkpoint at the page
   * the failing session started from, with the records counted before
   * it, and the entry failed with those.
   */
  lemma {:induction false} RoundsEnd(d: Disk, clock: Clock, browsers: seq<Browser>, cfg: Config, sid: int,
                                     page: int, totals: Totals)
    requires cfg.Valid()
    ensures var (r, d') := Rounds(d, clock, browsers, cfg, sid, page, totals);
      var k := Ledger.FirstWithId(Sessions(d'), sid);
      && (r.Finished? ==>
            && CurrentCheckpoint(d') == None
            && (k.Some? ==> Sessions(d')[k.value].status == Completed
                            && Sessions(d')[k.value].progress == Some(ProgressAt(r.totals, r.page))))
      && (r.Aborted? ==>
            && CurrentCheckpoint(d') == Some(Position(sid, r.page, r.totals.records))
            && (k.Some? ==> Sessions(d')[k.value].status == Failed
                            && Sessions(d')[k.value].progress == Some(ProgressAt(r.totals, r.page))))
    decreases |browsers|
  {
    if browsers != [] {
      var (o, d1) := SessionRun(d, clock, browsers[0], cfg, sid, page, totals);
      match o
      case Raised =>
        var d2 := AfterSaveCheckpoint(d1, clock, sid, page, totals.records);
        CheckpointRoundTrip(d1, clock, sid, page, totals.records);
        CompletionFinalises(d2, clock, sid, ProgressAt(totals, page), Failed);
      case Returned(p, t, disposition) =>
        if disposition == Done {
          var d2 := AfterClearCheckpoint(d1);
          CheckpointRoundTrip(d1, clock, sid, p, t.records);
          CompletionFinalises(d2, clock, sid, ProgressAt(t, p), Completed);
        } else {
          RoundsEnd(d1, clock, browsers[1..], cfg, sid, p, t);
        }
    }
  }

  /** A run never goes back: it ends on or after the page it started from. */
  lemma {:induction false} RoundsAdvance(d: Disk, clock: Clock, browsers: seq<Browser>, cfg: Config, sid: int,
                                         page: int, totals: Totals)
    requires cfg.Valid()
    ensures Rounds(d, clock, browsers, cfg, sid, page, totals).0.page >= page
    decreases |browsers|
  {
    if browsers != [] {
      var (o, d1) := SessionRun(d, clock, browsers[0], cfg, sid, page, totals);
      RunPages(d, clock, browsers[0], cfg, sid, page, totals);
      if o.Returned? && o.disposition != Done {
        RoundsAdvance(d1, clock, browsers[1..], cfg, sid, o.page, o.totals);
      }
    }
  }

  /** The store calls made between `d` and `d'`. */
  ghost function NewCalls(d: Disk, d': Disk): seq<Call>
  {
    if |d.calls| <= |d'.calls| then d'.calls[|d.calls|..] else []
  }

  /** Closing a finished run adds a checkpoint clear and a completion, neither of them an upsert. */
  lemma FinishCalls(d: Disk, clock: Clock, sid: int, page: int, t: Totals)
    ensures var d', rest := Finish(d, clock, sid, page, t), [CheckpointCleared, SessionCompleted(sid, ProgressAt(t, page), Completed)];
      && d'.calls == d.calls + rest
      && Tally(rest) == Totals(0, 0, 0)
      && AssignmentCount(d') == AssignmentCount(d)
  {
    QuietTally([CheckpointCleared, SessionCompleted(sid, ProgressAt(t, page), Completed)]);
  }

  /** A session followed by the rest of a run: logs, totals and store size add up. */
  lemma CombineRound(d: Disk, d1: Disk, d': Disk, log: seq<Call>, rest: seq<Call>, totals: Totals, t: Totals, rt: Totals)
    requires d1.calls == d.calls + log && d'.calls == d1.calls + rest
    requires t == Sum(totals, Tally(log)) && rt == Sum(t, Tally(rest))
    requires AssignmentCount(d1) == AssignmentCount(d) + Tally(log).added
    requires AssignmentCount(d') == AssignmentCount(d1) + (rt.added - t.added)
    ensures d'.calls == d.calls + NewCalls(d, d')
    ensures rt == Sum(totals, Tally(NewCalls(d, d')))
    ensures AssignmentCount(d') == AssignmentCount(d) + (rt.added - totals.added)
  {
    SuffixAfter(d.calls, log, rest);
    TallyConcat(log, rest);
  }

  /** What follows `a` in `a + x + y` is `x + y`. */
  lemma SuffixAfter(a: seq<Call>, x: seq<Call>, y: seq<Call>)
    ensures (a + x + y)[|a|..] == x + y
  {
    assert a + x + y == a + (x + y);
  }

  /**
   * Unless a session raised, the calls of a run only extend the log, the
   * totals it ends with are the totals it started with plus what every
   * upsert of every session reported, and the store grew by exactly the
   * records reported as added.
   */
  lemma {:induction false} RoundsTotals(d: Disk, clock: Clock, browsers: seq<Browser>, cfg: Config, sid: int,
                                        page: int, totals: Totals)
    requires cfg.Valid()
    ensures var (r, d') := Rounds(d, clock, browsers, cfg, sid, page, totals);
      !r.Aborted? ==>
        && d'.calls == d.calls + NewCalls(d, d')
        && r.totals == Sum(totals, Tally(NewCalls(d, d')))
        && AssignmentCount(d') == AssignmentCount(d) + (r.totals.added - totals.added)
    decreases |browsers|
  {
    if browsers == [] {
      assert NewCalls(d, d) == [];
    } else {
      var (o, d1) := SessionRun(d, clock, browsers[0], cfg, sid, page, totals);
      var log := RunLog(d, clock, browsers[0], cfg, sid, page, totals);
      RunCalls(d, clock, browsers[0], cfg, sid, page, totals);
      RunTotals(d, clock, browsers[0], cfg, sid, page, totals);
      if o.Returned? {
        var (r, d') := Rounds(d, clock, browsers, cfg, sid, page, totals);
        if o.disposition == Done {
          FinishCalls(d1, clock, sid, o.page, o.totals);
          CombineRound(d, d1, d', log, [CheckpointCleared, SessionCompleted(sid, ProgressAt(o.totals, o.page), Completed)],
                       totals, o.totals, r.totals);
        } else {
          assert (r, d') == Rounds(d1, clock, browsers[1..], cfg, sid, o.page, o.totals);
          RoundsTotals(d1, clock, browsers[1..], cfg, sid, o.page, o.totals);
          if !r.Aborted? {
            CombineRound(d, d1, d', log, NewCalls(d1, d'), totals, o.totals, r.totals);
          }
        }
      }
    }
  }

  /** A call a run of session `sid` may make: one of its sessions' calls, the checkpoint clear, or its completion. */
  ghost predicate OfRun(call: Call, sid: int)
  {
    OfSession(call, sid) || call == CheckpointCleared || (call.SessionCompleted? && call.id == sid)
  }

  ghost predicate AllOfRun(calls: seq<Call>, sid: int)
  {
    forall i :: 0 <= i < |calls| ==> OfRun(calls[i], sid)
  }

  /** `pages` is `start`, `start + 1`, ... */
  ghost predicate ConsecutiveFrom(pages: seq<int>, start: int)
  {
    forall i :: 0 <= i < |pages| ==> pages[i] == start + i
  }

  /**
   * What a run of session `sid` from `page` leaves behind when it goes from
   * `d` to `d'` with result `r`: the calls only extend the log and all
   * belong to the run; the pages whose progress is recorded are `page`,
   * `page + 1`, ...; a run that ran out of sessions stands at the page
   * after the last recorded one, and a finished run there or on the last
   * recorded page itself.
   */
  ghost predicate PagesFollow(d: Disk, d': Disk, r: RunResult, sid: int, page: int)
  {
    var log := NewCalls(d, d');
    var pages := UpdatedPages(log);
    && d'.calls == d.calls + log
    && AllOfRun(log, sid)
    && ConsecutiveFrom(pages, page)
    && (r.Interrupted? ==> r.page == page + |pages|)
    && (r.Finished? ==> r.page == page + |pages| || (|pages| > 0 && r.page == page + |pages| - 1))
  }

  /**
   * Across the rounds of a run, one session after the other under the
   * same session id, nothing is skipped or repeated where one session
   * hands over to the next: each rotation or block goes on from the page
   * the session returned.
   */
  lemma {:induction false} RoundsPages(d: Disk, clock: Clock, browsers: seq<Browser>, cfg: Config, sid: int,
                                       page: int, totals: Totals)
    requires cfg.Valid()
    ensures var (r, d') := Rounds(d, clock, browsers, cfg, sid, page, totals); PagesFollow(d, d', r, sid, page)
    decreases |browsers|
  {
    if browsers == [] {
      assert NewCalls(d, d) == [];
    } else {
      var (o, d1) := SessionRun(d, clock, browsers[0], cfg, sid, page, totals);
      var (r, d') := Rounds(d, clock, browsers, cfg, sid, page, totals);
      var log := RunLog(d, clock, browsers[0], cfg, sid, page, totals);
      SessionPages(d, clock, browsers[0], cfg, sid, page, totals);
      match o
      case Raised =>
        AbortedRound(d, d1, d', log, clock, sid, page, totals);
      case Returned(p, t, disposition) =>
        if disposition == Done {
          FinishedRound(d, d1, d', log, clock, sid, page, p, t);
        } else {
          assert (r, d') == Rounds(d1, clock, browsers[1..], cfg, sid, p, t);
          RoundsPages(d1, clock, browsers[1..], cfg, sid, p, t);
          ContinuedRound(d, d1, d', log, r, sid, page, p);
        }
    }
  }

  /** One session's own calls, and the pages they record, as its run lemmas state them. */
  lemma SessionPages(d: Disk, clock: Clock, b: Browser, cfg: Config, sid: int, page: int, totals: Totals)
    requires cfg.Valid()
    ensures var (o, d1) := SessionRun(d, clock, b, cfg, sid, page, totals);
      var log := RunLog(d, clock, b, cfg, sid, page, totals);
      var n := |UpdatedPages(log)|;
      && d1.calls == d.calls + log && AllOfRun(log, sid)
      && ConsecutiveFrom(UpdatedPages(log), page)
      && (o.Returned? ==> o.page == page + n || (n > 0 && o.page == page + n - 1 && o.disposition == Done))
      && (o.Returned? && o.disposition != Done ==> o.page == page + n)
  {
    RunCalls(d, clock, b, cfg, sid, page, totals);
    RunPages(d, clock, b, cfg, sid, page, totals);
  }

  /** A session that raised: the abort adds a checkpoint and the failed completion, and no page. */
  lemma AbortedRound(d: Disk, d1: Disk, d': Disk, log: seq<Call>, clock: Clock, sid: int, page: int, totals: Totals)
    requires d1.calls == d.calls + log && AllOfRun(log, sid) && ConsecutiveFrom(UpdatedPages(log), page)
    requires d' == Abort(d1, clock, sid, page, totals)
    ensures PagesFollow(d, d', Aborted(page, totals), sid, page)
  {
    var rest := [CheckpointSaved(sid, page, totals.records), SessionCompleted(sid, ProgressAt(totals, page), Failed)];
    assert d'.calls == d1.calls + rest;
    QuietPages(rest);
    RoundStep(d, d1, d', log, rest, sid, page);
  }

  /** A session that was done: the finish clears the checkpoint and completes the session, and records no page. */
  lemma FinishedRound(d: Disk, d1: Disk, d': Disk, log: seq<Call>, clock: Clock, sid: int, page: int, p: int, t: Totals)
    requires d1.calls == d.calls + log && AllOfRun(log, sid) && ConsecutiveFrom(UpdatedPages(log), page)
    requires var n := |UpdatedPages(log)|; p == page + n || (n > 0 && p == page + n - 1)
    requires d' == Finish(d1, clock, sid, p, t)
    ensures PagesFollow(d, d', Finished(p, t), sid, page)
  {
    var rest := [CheckpointCleared, SessionCompleted(sid, ProgressAt(t, p), Completed)];
    FinishCalls(d1, clock, sid, p, t);
    QuietPages(rest);
    RoundStep(d, d1, d', log, rest, sid, page);
  }

  /** A session that rotated or was blocked, followed by the rest of the run from the page it returned. */
  lemma ContinuedRound(d: Disk, d1: Disk, d': Disk, log: seq<Call>, r: RunResult, sid: int, page: int, p: int)
    requires d1.calls == d.calls + log && AllOfRun(log, sid) && ConsecutiveFrom(UpdatedPages(log), page)
    requires p == page + |UpdatedPages(log)|
    requires PagesFollow(d1, d', r, sid, p)
    ensures PagesFollow(d, d', r, sid, page)
  {
    RoundStep(d, d1, d', log, NewCalls(d1, d'), sid, page);
  }

  /** Calls without a progress update record no page. */
  lemma {:induction false} QuietPages(calls: seq<Call>)
    requires forall i :: 0 <= i < |calls| ==> !calls[i].SessionUpdated?
    ensures UpdatedPages(calls) == []
    decreases |calls|
  {
    if calls != [] {
      QuietPages(calls[..|calls| - 1]);
    }
  }

  /** One session's calls followed by those of the rest of the run make up the run's calls, pages and all. */
  lemma RoundStep(d: Disk, d1: Disk, d': Disk, log: seq<Call>, rest: seq<Call>, sid: int, page: int)
    requires d1.calls == d.calls + log && d'.calls == d1.calls + rest
    requires AllOfRun(log, sid) && AllOfRun(rest, sid)
    requires ConsecutiveFrom(UpdatedPages(log), page) && ConsecutiveFrom(UpdatedPages(rest), page + |UpdatedPages(log)|)
    ensures NewCalls(d, d') == log + rest && d'.calls == d.calls + NewCalls(d, d')
    ensures AllOfRun(NewCalls(d, d'), sid)
    ensures ConsecutiveFrom(UpdatedPages(NewCalls(d, d')), page)
    ensures |UpdatedPages(NewCalls(d, d'))| == |UpdatedPages(log)| + |UpdatedPages(rest)|
  {
    SuffixAfter(d.calls, log, rest);
    assert d'.calls == d.calls + (log + rest);
    var x, y := UpdatedPages(log), UpdatedPages(rest);
    UpdatedPagesConcat(log, rest);
    forall i | 0 <= i < |log + rest|
      ensures OfRun((log + rest)[i], sid)
    {
      if i >= |log| {
        assert (log + rest)[i] == rest[i - |log|];
      }
    }
    forall i | 0 <= i < |x + y|
      ensures (x + y)[i] == page + i
    {
      if i >= |x| {
        assert (x + y)[i] == y[i - |x|];
      }
    }
  }

  // ---------------------------------------------------------------------
  // The whole run

  /**
   * A fresh run that finishes leaves a store holding exactly the records
   * it reported as new, and no checkpoint.
   */
  lemma FreshRunHoldsWhatItAdded(d: Disk, clock: Clock, browsers: seq<Browser>, cfg: Config)
    requires cfg.Valid()
    ensures var (r, d') := ScrapeAllSpec(d, clock, true, browsers, cfg);
      r.Finished? ==> AssignmentCount(d') == r.totals.added && CurrentCheckpoint(d') == None
  {
    var (d1, s) := Begin(d, clock, true);
    BeginFacts(d, clock, true);
    RoundsTotals(d1, clock, browsers, cfg, s.sid, s.page, s.totals);
    RoundsEnd(d1, clock, browsers, cfg, s.sid, s.page, s.totals);
  }

  /**
   * After an exception the next incremental run resumes the same session
   * on the page after the one the failing session started from, with the
   * record count from before that session and the new and updated
   * counts back at zero.
   */
  lemma ResumeAfterAbort(d: Disk, clock: Clock, freshRun: bool, browsers: seq<Browser>, cfg: Config)
    requires cfg.Valid()
    ensures var (r, d') := ScrapeAllSpec(d, clock, freshRun, browsers, cfg);
      var s := Begin(d, clock, freshRun).1;
      r.Aborted? ==>
        && r.page >= s.page
        && Begin(d', clock, false) == (d', Start(s.sid, r.page + 1, Totals(0, 0, r.totals.records)))
  {
    var (d1, s) := Begin(d, clock, freshRun);
    RoundsEnd(d1, clock, browsers, cfg, s.sid, s.page, s.totals);
    RoundsAdvance(d1, clock, browsers, cfg, s.sid, s.page, s.totals);
  }

  /**
   * A finished run leaves no checkpoint, so the next incremental run
   * opens a new session and starts over at page 1 with zero totals.
   */
  lemma NextRunAfterFinish(d: Disk, clock: Clock, freshRun: bool, browsers: seq<Browser>, cfg: Config)
    requires cfg.Valid()
    ensures var (r, d') := ScrapeAllSpec(d, clock, freshRun, browsers, cfg);
      r.Finished? ==>
        var (d2, id) := AfterStart(d', clock);
        && Begin(d', clock, false) == (d2, Start(id, 1, Totals(0, 0, 0)))
        && id == |Sessions(d')| + 1
  {
    var (d1, s) := Begin(d, clock, freshRun);
    RoundsEnd(d1, clock, browsers, cfg, s.sid, s.page, s.totals);
  }

  /**
   * A session that returns "blocked" or "rotate" has recorded progress
   * only for pages before the one it returns, yet the checkpoint it
   * leaves names that page: a run stopped there resumes on the page
   * after it, so that page is never scraped.
   */
  lemma ResumeSkipsExitPage(d: Disk, clock: Clock, b: Browser, cfg: Config, sid: int, startPage: int, totals: Totals)
    requires cfg.Valid()
    ensures var (o, d') := SessionRun(d, clock, b, cfg, sid, startPage, totals);
      o.Returned? && o.disposition != Done ==>
        && o.page !in UpdatedPages(RunLog(d, clock, b, cfg, sid, startPage, totals))
        && Begin(d', clock, false) == (d', Start(sid, o.page + 1, Totals(0, 0, o.totals.records)))
  {
    RunPages(d, clock, b, cfg, sid, startPage, totals);
    RunCheckpoints(d, clock, b, cfg, sid, startPage, totals);
  }
}
