/**
 * `scrape_with_session`: one browser session that walks the result pages,
 * saving each page's rows and progress, until it runs out of pages, hits a
 * block, rotates, or fails.
 */
module Pagination {
  import opened Wrappers
  import opened Records
  import opened Rows
  import opened Browsing
  import opened Database

  /** The running totals `total_added`, `total_updated`, `total_records`. */
  datatype Totals = Totals(added: int, updated: int, records: int)

  function Plus(t: Totals, added: int, updated: int, records: int): Totals
  {
    Totals(t.added + added, t.updated + updated, t.records + records)
  }

  /** The disposition the session returns: "completed" (`Done`), "blocked" or "rotate". */
  datatype Disposition = Done | Blocked | Rotate

  /** What a session hands back: the returned tuple, or an exception. */
  datatype SessionOutcome =
    | Returned(page: int, totals: Totals, disposition: Disposition)
    | Raised

  /**
   * The loop variables: `page_num`, `pages_in_session`,
   * `consecutive_no_new`, the browser position, the number of "next"
   * clicks made so far, and the totals.
   */
  datatype Cursor = Cursor(page: int, inSession: nat, noNew: nat, pos: int, click: nat, totals: Totals)

  /** How one pass through the loop body ends. */
  datatype Step =
    | Advanced(cursor: Cursor, disk: Disk, batch: seq<Row>, added: nat, updated: nat)
    | Rotated(disk: Disk)
    | HitBlock(disk: Disk)
    | EmptyPage
    | NoValidRows
    | NoNewRecords(disk: Disk, batch: seq<Row>, updated: nat, totals: Totals)
    | NoNextPage(disk: Disk, batch: seq<Row>, added: nat, updated: nat, totals: Totals)
    | ExtractionFailed

  /** The progress `update_scrape_session` records for a page. */
  function ProgressAt(t: Totals, page: int): Progress
  {
    Progress(t.records, t.added, t.updated, page)
  }

  /** One pass through the body of `while page_num <= max_pages`. */
  function PageStep(d: Disk, clock: Clock, b: Browser, cfg: Config, sid: int, c: Cursor): (s: Step)
    requires cfg.Valid()
    ensures s.Advanced? ==>
      && s.cursor.page == c.page + 1 && s.cursor.pos == c.pos + 1
      && s.cursor.click == c.click + 1 && Clicked(b, c.click)
      && s.cursor.inSession == c.inSession + 1
  {
    if c.inSession + 1 > cfg.rotateEvery then
      Rotated(AfterSaveCheckpoint(d, clock, sid, c.page, c.totals.records))
    else
      match ShownAt(b, c.pos)
      case Fault => ExtractionFailed
      case Table(rows, cloudflare) =>
        if rows == [] then
          if cloudflare then HitBlock(AfterSaveCheckpoint(d, clock, sid, c.page, c.totals.records))
          else EmptyPage
        else
          var batch := PageAssignments(rows);
          if batch == [] then NoValidRows
          else
            var u := AfterUpsert(d, clock, batch);
            AfterBatch(AfterCount(u.disk), clock, b, cfg, sid, c, batch, u.added, u.updated)
  }

  /**
   * The rest of a pass once the page's batch has been upserted (returning
   * `added` and `updated`) and the store size read: the duplicate counter,
   * the progress update, the periodic checkpoint and the click to the next page.
   */
  function AfterBatch(d: Disk, clock: Clock, b: Browser, cfg: Config, sid: int, c: Cursor,
                      batch: seq<Row>, added: nat, updated: nat): (s: Step)
    requires cfg.Valid()
    ensures s.Advanced? ==>
      && s.cursor.page == c.page + 1 && s.cursor.pos == c.pos + 1
      && s.cursor.click == c.click + 1 && Clicked(b, c.click)
      && s.cursor.inSession == c.inSession + 1
  {
    var totals := Plus(c.totals, added, updated, |batch|);
    var noNew := if added == 0 then c.noNew + 1 else 0;
    if added == 0 && noNew >= cfg.noNewLimit then
      NoNewRecords(d, batch, updated, totals)
    else
      var progressed := AfterUpdate(d, sid, ProgressAt(totals, c.page));
      var saved :=
        if c.page % cfg.checkpointEvery == 0 then AfterSaveCheckpoint(progressed, clock, sid, c.page, totals.records)
        else progressed;
      if Clicked(b, c.click) then
        Advanced(Cursor(c.page + 1, c.inSession + 1, noNew, c.pos + 1, c.click + 1, totals), saved, batch, added, updated)
      else
        NoNextPage(saved, batch, added, updated, totals)
  }

  /** What the session returns when a pass ends the loop. */
  function Outcome(c: Cursor, s: Step): SessionOutcome
    requires !s.Advanced?
  {
    match s
    case Rotated(_) => Returned(c.page, c.totals, Rotate)
    case HitBlock(_) => Returned(c.page, c.totals, Blocked)
    case NoNewRecords(_, _, _, totals) => Returned(c.page, totals, Done)
    case NoNextPage(_, _, _, _, totals) => Returned(c.page, totals, Done)
    case ExtractionFailed => Raised
    case _ => Returned(c.page, c.totals, Done)
  }

  /** The outcome of a pass that ends the loop, with the disk it leaves (`d` when it wrote nothing). */
  function Stopped(d: Disk, c: Cursor, s: Step): (SessionOutcome, Disk)
    requires !s.Advanced?
  {
    (Outcome(c, s), if s.EmptyPage? || s.NoValidRows? || s.ExtractionFailed? then d else s.disk)
  }

  /** How a pass leaves the loop: with the next cursor, or with the session's result. */
  datatype PageEnd = Continue(cursor: Cursor) | Stop(outcome: SessionOutcome)

  /** A pass's effect read as "go on from here" or "return this", with the disk it leaves. */
  function Resolve(d: Disk, c: Cursor, s: Step): (PageEnd, Disk)
  {
    if s.Advanced? then (Continue(s.cursor), s.disk)
    else
      var (o, d') := Stopped(d, c, s);
      (Stop(o), d')
  }

  function Remaining(cfg: Config, c: Cursor): nat
  {
    if c.page <= cfg.maxPages then cfg.maxPages - c.page + 1 else 0
  }

  /** The loop from cursor `c` on: what the session returns and the disk it leaves. */
  function SessionLoop(d: Disk, clock: Clock, b: Browser, cfg: Config, sid: int, c: Cursor): (SessionOutcome, Disk)
    requires cfg.Valid()
    decreases Remaining(cfg, c)
  {
    if c.page > cfg.maxPages then (Returned(c.page, c.totals, Done), d)
    else
      var s := PageStep(d, clock, b, cfg, sid, c);
      if s.Advanced? then SessionLoop(s.disk, clock, b, cfg, sid, s.cursor)
      else Stopped(d, c, s)
  }

  /** The cursor the loop starts from, once the browser has been brought to the start page. */
  function FirstCursor(b: Browser, startPage: int, totals: Totals): Cursor
  {
    var (pos, used) := Navigation(b, startPage);
    Cursor(startPage, 0, 0, pos, used, totals)
  }

  /** A whole session: setup, navigation to the start page, then the loop. */
  function SessionRun(d: Disk, clock: Clock, b: Browser, cfg: Config, sid: int, startPage: int, totals: Totals)
    : (SessionOutcome, Disk)
    requires cfg.Valid()
  {
    if b.setupFails then (Raised, d)
    else SessionLoop(d, clock, b, cfg, sid, FirstCursor(b, startPage, totals))
  }

  /**
   * The tail of a pass of `scrape_with_session`, once the batch is saved
   * and the store size read: the duplicate counter, the progress update,
   * the periodic checkpoint and the click to the next page.
   */
  method FinishPage(db: Store, b: Browser, cfg: Config, sid: int, c: Cursor,
                    pageAssignments: seq<Row>, added: nat, updated: nat)
    returns (e: PageEnd)
    requires cfg.Valid()
    modifies db
    ensures (e, db.Snapshot()) ==
      Resolve(old(db.Snapshot()), c, AfterBatch(old(db.Snapshot()), db.clock, b, cfg, sid, c, pageAssignments, added, updated))
  {
    var pageNum, totalAdded, totalUpdated, totalRecords := c.page, c.totals.added, c.totals.updated, c.totals.records;
    totalAdded := totalAdded + added;
    totalUpdated := totalUpdated + updated;
    totalRecords := totalRecords + |pageAssignments|;
    var consecutiveNoNew := c.noNew;
    if added == 0 {
      consecutiveNoNew := consecutiveNoNew + 1;
      if consecutiveNoNew >= cfg.noNewLimit {
        return Stop(Returned(pageNum, Totals(totalAdded, totalUpdated, totalRecords), Done));
      }
    } else {
      consecutiveNoNew := 0;
    }
    db.UpdateScrapeSession(sid, totalRecords, totalAdded, totalUpdated, pageNum);
    if pageNum % cfg.checkpointEvery == 0 {
      db.SaveCheckpoint(sid, pageNum, totalRecords);
    }
    if Clicked(b, c.click) {
      e := Continue(Cursor(pageNum + 1, c.inSession + 1, consecutiveNoNew, c.pos + 1, c.click + 1,
                           Totals(totalAdded, totalUpdated, totalRecords)));
    } else {
      e := Stop(Returned(pageNum, Totals(totalAdded, totalUpdated, totalRecords), Done));
    }
  }

  /** One pass through the body of the page loop of `scrape_with_session`. */
  method ScrapePage(db: Store, b: Browser, cfg: Config, sid: int, c: Cursor) returns (e: PageEnd)
    requires cfg.Valid()
    modifies db
    ensures (e, db.Snapshot()) == Resolve(old(db.Snapshot()), c, PageStep(old(db.Snapshot()), db.clock, b, cfg, sid, c))
  {
    var pageNum, totalRecords := c.page, c.totals.records;
    if c.inSession + 1 > cfg.rotateEvery {
      db.SaveCheckpoint(sid, pageNum, totalRecords);
      return Stop(Returned(pageNum, c.totals, Rotate));
    }
    var shown := ShownAt(b, c.pos);
    if shown.Fault? {
      return Stop(Raised);
    }
    var tableData := shown.rows;
    if tableData == [] {
      if shown.cloudflare {
        db.SaveCheckpoint(sid, pageNum, totalRecords);
        return Stop(Returned(pageNum, c.totals, Blocked));
      }
      return Stop(Returned(pageNum, c.totals, Done));
    }
    var pageAssignments := ProcessRows(tableData);
    if pageAssignments == [] {
      return Stop(Returned(pageNum, c.totals, Done));
    }
    var added, updated := db.UpsertAssignmentsBatch(pageAssignments);
    var _ := db.GetAssignmentCount();
    e := FinishPage(db, b, cfg, sid, c, pageAssignments, added, updated);
  }

  /** `scrape_with_session`, acting on the store. */
  method ScrapeWithSession(db: Store, b: Browser, cfg: Config, sid: int, startPage: int, totals: Totals)
    returns (out: SessionOutcome)
    requires cfg.Valid()
    modifies db
    ensures (out, db.Snapshot()) == SessionRun(old(db.Snapshot()), db.clock, b, cfg, sid, startPage, totals)
  {
    if b.setupFails {
      return Raised;
    }
    var pos: int, click: nat := Navigate(b, startPage);
    var c := Cursor(startPage, 0, 0, pos, click, totals);
    ghost var goal := SessionRun(old(db.Snapshot()), db.clock, b, cfg, sid, startPage, totals);
    while c.page <= cfg.maxPages
      invariant goal == SessionLoop(db.Snapshot(), db.clock, b, cfg, sid, c)
      decreases cfg.maxPages - c.page
    {
      var e := ScrapePage(db, b, cfg, sid, c);
      if e.Stop? {
        return e.outcome;
      }
      c := e.cursor;
    }
    out := Returned(c.page, c.totals, Done);
  }
}
