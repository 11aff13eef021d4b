/**
 * What one call of `scrape_with_session` promises, stated on the whole
 * call: setup, navigation to the start page and the loop. The calls it
 * makes on the store are `RunLog`; each lemma reads one property of the
 * run off that log and the outcome.
 */
module SessionRuns {
  import opened Wrappers
  import opened Records
  import opened Browsing
  import opened Database
  import opened Pagination
  import opened CallLog
  import opened SessionFacts

  /** The calls a session makes on the store: none when the browser cannot be set up. */
  ghost function RunLog(d: Disk, clock: Clock, b: Browser, cfg: Config, sid: int, startPage: int, totals: Totals)
    : seq<Call>
    requires cfg.Valid()
  {
    if b.setupFails then [] else SessionLog(d, clock, b, cfg, sid, FirstCursor(b, startPage, totals))
  }

  /** The trace of the loop of a session that got past setup. */
  ghost function RunTrace(d: Disk, clock: Clock, b: Browser, cfg: Config, sid: int, startPage: int, totals: Totals)
    : seq<Pass>
    requires cfg.Valid()
  {
    Trace(d, clock, b, cfg, sid, FirstCursor(b, startPage, totals))
  }

  /** A session past setup is its trace: it returns what the trace ends in and makes the calls of its log. */
  lemma RunBridge(d: Disk, clock: Clock, b: Browser, cfg: Config, sid: int, startPage: int, totals: Totals)
    requires cfg.Valid() && !b.setupFails
    ensures var c, t := FirstCursor(b, startPage, totals), RunTrace(d, clock, b, cfg, sid, startPage, totals);
      var r := SessionRun(d, clock, b, cfg, sid, startPage, totals);
      && Chain(b, cfg, c, t) && Explained(b, cfg, t) && Counted(cfg, t) && Read(b, t)
      && r.0 == Ending(c, t)
      && RunLog(d, clock, b, cfg, sid, startPage, totals) == LogOf(sid, cfg, t)
      && Logged(d, r.1, LogOf(sid, cfg, t))
  {
    var c := FirstCursor(b, startPage, totals);
    TraceSpec(d, clock, b, cfg, sid, c);
    SessionLogged(d, clock, b, cfg, sid, c);
  }

  /**
   * A session only appends to the store's call log: upserts, progress
   * updates and checkpoint saves of its own session, nothing else. The
   * store grows by the records the upserts added.
   */
  lemma RunCalls(d: Disk, clock: Clock, b: Browser, cfg: Config, sid: int, startPage: int, totals: Totals)
    requires cfg.Valid()
    ensures var r, log := SessionRun(d, clock, b, cfg, sid, startPage, totals), RunLog(d, clock, b, cfg, sid, startPage, totals);
      && r.1.calls == d.calls + log
      && (forall i :: 0 <= i < |log| ==> OfSession(log[i], sid))
      && AssignmentCount(r.1) == AssignmentCount(d) + Tally(log).added
  {
    if b.setupFails {
      assert d.calls + [] == d.calls;
    } else {
      var c, t := FirstCursor(b, startPage, totals), RunTrace(d, clock, b, cfg, sid, startPage, totals);
      RunBridge(d, clock, b, cfg, sid, startPage, totals);
      TraceCallsOfSession(b, cfg, sid, c, t);
    }
  }

  /** The totals a session returns are the totals it started from plus what its upserts reported. */
  lemma RunTotals(d: Disk, clock: Clock, b: Browser, cfg: Config, sid: int, startPage: int, totals: Totals)
    requires cfg.Valid()
    ensures var o, log := SessionRun(d, clock, b, cfg, sid, startPage, totals).0, RunLog(d, clock, b, cfg, sid, startPage, totals);
      o.Returned? ==> o.totals == Sum(totals, Tally(log))
  {
    if !b.setupFails {
      var c, t := FirstCursor(b, startPage, totals), RunTrace(d, clock, b, cfg, sid, startPage, totals);
      RunBridge(d, clock, b, cfg, sid, startPage, totals);
      TraceTotals(b, cfg, sid, c, t);
    }
  }

  /**
   * The pages a session records progress for are `start_page`,
   * `start_page + 1`, ... one after the other; it returns the page after
   * the last one recorded, or that last page itself when it stopped
   * there with "completed"; past `max_pages` it is always "completed".
   */
  lemma RunPages(d: Disk, clock: Clock, b: Browser, cfg: Config, sid: int, startPage: int, totals: Totals)
    requires cfg.Valid()
    ensures var o, pages := SessionRun(d, clock, b, cfg, sid, startPage, totals).0,
                           UpdatedPages(RunLog(d, clock, b, cfg, sid, startPage, totals));
      && (forall i :: 0 <= i < |pages| ==> pages[i] == startPage + i)
      && (o.Returned? ==>
            || o.page == startPage + |pages|
            || (|pages| > 0 && o.page == startPage + |pages| - 1 && o.disposition == Done))
      && (o.Returned? && o.page > cfg.maxPages ==> o.disposition == Done)
  {
    if !b.setupFails {
      var c, t := FirstCursor(b, startPage, totals), RunTrace(d, clock, b, cfg, sid, startPage, totals);
      RunBridge(d, clock, b, cfg, sid, startPage, totals);
      TracePages(b, cfg, sid, c, t);
    }
  }

  /**
   * Checkpoints during a session: a "blocked" or "rotate" return leaves
   * the checkpoint at the returned page and record count, written last;
   * every other checkpoint the session writes is a periodic one, right
   * after the progress update of a page that is a multiple of
   * `SAVE_CHECKPOINT_EVERY`. A "completed" return or an exception leaves
   * the checkpoint as it was or at such a periodic save.
   */
  lemma RunCheckpoints(d: Disk, clock: Clock, b: Browser, cfg: Config, sid: int, startPage: int, totals: Totals)
    requires cfg.Valid()
    ensures var r, log := SessionRun(d, clock, b, cfg, sid, startPage, totals), RunLog(d, clock, b, cfg, sid, startPage, totals);
      var o, cp := r.0, CurrentCheckpoint(r.1);
      var exit := o.Returned? && o.disposition != Done;
      && (exit ==>
            && |log| > 0 && log[|log| - 1] == CheckpointSaved(sid, o.page, o.totals.records)
            && PeriodicOnly(log[..|log| - 1], sid, cfg.checkpointEvery)
            && cp == Some(Position(sid, o.page, o.totals.records)))
      && (!exit ==>
            && PeriodicOnly(log, sid, cfg.checkpointEvery)
            && (cp == CurrentCheckpoint(d)
                || (cp.Some? && cp.value.sessionId == sid && cp.value.lastPage % cfg.checkpointEvery == 0)))
  {
    if b.setupFails {
      assert PeriodicOnly([], sid, cfg.checkpointEvery);
    } else {
      var c, t := FirstCursor(b, startPage, totals), RunTrace(d, clock, b, cfg, sid, startPage, totals);
      RunBridge(d, clock, b, cfg, sid, startPage, totals);
      TraceCheckpoints(b, cfg, sid, c, t);
      var o, log := Ending(c, t), LogOf(sid, cfg, t);
      if !(o.Returned? && o.disposition != Done) {
        LastSavedPeriodic(log, sid, cfg.checkpointEvery, CurrentCheckpoint(d));
      }
    }
  }

  /**
   * Why a session stopped: "blocked" on an empty table under a Cloudflare
   * title at the returned page's browser position, "rotate" once the
   * session's page count passed `SESSION_ROTATE_EVERY`, an exception
   * when setup or an extraction failed.
   */
  lemma RunStopCauses(d: Disk, clock: Clock, b: Browser, cfg: Config, sid: int, startPage: int, totals: Totals)
    requires cfg.Valid()
    ensures b.setupFails ==> SessionRun(d, clock, b, cfg, sid, startPage, totals).0 == Raised
    ensures !b.setupFails ==>
      StoppedFor(b, cfg, FirstCursor(b, startPage, totals), SessionRun(d, clock, b, cfg, sid, startPage, totals).0,
                 RunLog(d, clock, b, cfg, sid, startPage, totals))
  {
    if !b.setupFails {
      var c, t := FirstCursor(b, startPage, totals), RunTrace(d, clock, b, cfg, sid, startPage, totals);
      RunBridge(d, clock, b, cfg, sid, startPage, totals);
      TraceStopCauses(b, cfg, sid, c, t);
    }
  }


  /** Page by page, the batches a session upserts are what `process_rows` makes of the tables it read. */
  lemma RunBatches(d: Disk, clock: Clock, b: Browser, cfg: Config, sid: int, startPage: int, totals: Totals)
    requires cfg.Valid()
    ensures BatchesShown(b, FirstCursor(b, startPage, totals).pos, Batches(RunLog(d, clock, b, cfg, sid, startPage, totals)))
  {
    if !b.setupFails {
      var c, t := FirstCursor(b, startPage, totals), RunTrace(d, clock, b, cfg, sid, startPage, totals);
      RunBridge(d, clock, b, cfg, sid, startPage, totals);
      TraceBatches(b, cfg, sid, c, t);
    }
  }

  /**
   * The duplicate stop: a session whose last call is an upsert returned
   * "completed" right after a page that added nothing brought
   * `consecutive_no_new` to the limit; no earlier page did.
   */
  lemma RunDuplicates(d: Disk, clock: Clock, b: Browser, cfg: Config, sid: int, startPage: int, totals: Totals)
    requires cfg.Valid()
    ensures var o, log := SessionRun(d, clock, b, cfg, sid, startPage, totals).0, RunLog(d, clock, b, cfg, sid, startPage, totals);
      && (EndsOnUpsert(log) ==> o.Returned? && o.disposition == Done && StopsOnDuplicates(log, 0, cfg.noNewLimit))
      && NoEarlyDuplicateStop(log, 0, cfg.noNewLimit)
  {
    if !b.setupFails {
      var c, t := FirstCursor(b, startPage, totals), RunTrace(d, clock, b, cfg, sid, startPage, totals);
      RunBridge(d, clock, b, cfg, sid, startPage, totals);
      TraceDuplicates(b, cfg, sid, c, t);
      TraceNoEarlyStop(b, cfg, sid, c, t);
      CheckedMeans(LogOf(sid, cfg, t), c.noNew, cfg.noNewLimit);
    }
  }

  /** No session rotates when its whole page range fits within `SESSION_ROTATE_EVERY`. */
  lemma RotationNeverFires(d: Disk, clock: Clock, b: Browser, cfg: Config, sid: int, startPage: int, totals: Totals)
    requires cfg.Valid() && cfg.maxPages - startPage + 1 <= cfg.rotateEvery
    ensures var o := SessionRun(d, clock, b, cfg, sid, startPage, totals).0;
      !(o.Returned? && o.disposition == Rotate)
  {
    RunPages(d, clock, b, cfg, sid, startPage, totals);
    RunStopCauses(d, clock, b, cfg, sid, startPage, totals);
  }

  /**
   * With the constants of scraper.py, rotation never fires: a session
   * covers at most `max_pages` = 1000 pages, far below the rotation
   * limit of 10000, for every start page from -8999 on.
   */
  lemma SourceSessionsNeverRotate(d: Disk, clock: Clock, b: Browser, sid: int, startPage: int, totals: Totals)
    requires startPage > SourceConfig.maxPages - SourceConfig.rotateEvery
    ensures var o := SessionRun(d, clock, b, SourceConfig, sid, startPage, totals).0;
      !(o.Returned? && o.disposition == Rotate)
  {
    RotationNeverFires(d, clock, b, SourceConfig, sid, startPage, totals);
  }
}
