/**
 * What one run of `scrape_with_session` does to the store, read off the
 * calls it makes: the totals it returns, the pages it records, where it
 * saves checkpoints, when it stops for duplicates, and why it stops.
 *
 * A run is first unrolled into its trace, the passes through the loop
 * with the cursor each started from; the properties are then proved over
 * traces, where only the browser and the constants matter.
 */
module SessionFacts {
  import opened Wrappers
  import opened Records
  import opened Browsing
  import opened Database
  import opened Pagination
  import opened CallLog
  import Rows

  // ---------------------------------------------------------------------
  // The store's side of a run

  /** A log of calls that took the store from `d` to `d'`, with the effect on the two files it reads. */
  ghost predicate Logged(d: Disk, d': Disk, log: seq<Call>)
  {
    && d'.calls == d.calls + log
    && AssignmentCount(d') == AssignmentCount(d) + Tally(log).added
    && CurrentCheckpoint(d') == LastSaved(log, CurrentCheckpoint(d))
  }

  /** Two logged stretches make one. */
  lemma LoggedChain(d1: Disk, d2: Disk, d3: Disk, x: seq<Call>, y: seq<Call>)
    requires Logged(d1, d2, x) && Logged(d2, d3, y)
    ensures Logged(d1, d3, x + y)
  {
    TallyConcat(x, y);
    LastSavedConcat(x, y, CurrentCheckpoint(d1));
  }

  // ---------------------------------------------------------------------
  // The log of a pass and of a session

  /** The checkpoint `save_checkpoint` writes on this page, if the page is a multiple of `SAVE_CHECKPOINT_EVERY`. */
  ghost function Periodic(sid: int, cfg: Config, page: int, records: int): seq<Call>
    requires cfg.Valid()
  {
    if page % cfg.checkpointEvery == 0 then [CheckpointSaved(sid, page, records)] else []
  }

  /** The calls a pass that ended as `s` made. */
  ghost function PageLog(sid: int, cfg: Config, c: Cursor, s: Step): seq<Call>
    requires cfg.Valid()
  {
    match s
    case Advanced(next, _, batch, added, updated) =>
      [Upserted(batch, added, updated), SessionUpdated(sid, ProgressAt(next.totals, c.page))]
        + Periodic(sid, cfg, c.page, next.totals.records)
    case Rotated(_) => [CheckpointSaved(sid, c.page, c.totals.records)]
    case HitBlock(_) => [CheckpointSaved(sid, c.page, c.totals.records)]
    case NoNewRecords(_, batch, updated, _) => [Upserted(batch, 0, updated)]
    case NoNextPage(_, batch, added, updated, totals) =>
      [Upserted(batch, added, updated), SessionUpdated(sid, ProgressAt(totals, c.page))]
        + Periodic(sid, cfg, c.page, totals.records)
    case _ => []
  }

  /** One pass through the loop: the cursor it started from and how it ended. */
  datatype Pass = Pass(before: Cursor, step: Step)

  /** The passes the loop makes from cursor `c` on. */
  ghost function Trace(d: Disk, clock: Clock, b: Browser, cfg: Config, sid: int, c: Cursor): seq<Pass>
    requires cfg.Valid()
    decreases Remaining(cfg, c)
  {
    if c.page > cfg.maxPages then []
    else
      var s := PageStep(d, clock, b, cfg, sid, c);
      [Pass(c, s)] + if s.Advanced? then Trace(s.disk, clock, b, cfg, sid, s.cursor) else []
  }

  /** The calls made along a trace. */
  ghost function LogOf(sid: int, cfg: Config, t: seq<Pass>): seq<Call>
    requires cfg.Valid()
  {
    if t == [] then [] else PageLog(sid, cfg, t[0].before, t[0].step) + LogOf(sid, cfg, t[1..])
  }

  /** The calls the loop makes from cursor `c` on. */
  ghost function SessionLog(d: Disk, clock: Clock, b: Browser, cfg: Config, sid: int, c: Cursor): seq<Call>
    requires cfg.Valid()
  {
    LogOf(sid, cfg, Trace(d, clock, b, cfg, sid, c))
  }

  /** What a trace returns, read from its passes. */
  ghost function Ending(c: Cursor, t: seq<Pass>): SessionOutcome
    decreases |t|
  {
    if t == [] then Returned(c.page, c.totals, Done)
    else if t[0].step.Advanced? then Ending(t[0].step.cursor, t[1..])
    else Outcome(t[0].before, t[0].step)
  }

  /** How a pass that went on moved the cursor: one page, one position, one click that succeeded. */
  ghost predicate Moves(b: Browser, p: Pass)
  {
    var c, s := p.before, p.step;
    s.Advanced? ==>
      && s.cursor.page == c.page + 1 && s.cursor.pos == c.pos + 1
      && s.cursor.click == c.click + 1 && Clicked(b, c.click)
      && s.cursor.inSession == c.inSession + 1
  }

  /**
   * What the browser and the constants decide about how a pass ends: it
   * rotates exactly when the session count passes the limit; below the
   * limit it is "blocked" exactly on an empty table under a Cloudflare
   * title, stops as "completed" exactly on an empty table without one or
   * on a table with no valid row, and raises exactly on a failed
   * extraction; a pass that saved its batch and recorded its page stops
   * exactly when the click to the next page failed.
   */
  ghost predicate Causes(b: Browser, cfg: Config, p: Pass)
  {
    var c, s := p.before, p.step;
    var shown := ShownAt(b, c.pos);
    && (s.Rotated? <==> c.inSession + 1 > cfg.rotateEvery)
    && (c.inSession + 1 <= cfg.rotateEvery ==>
          && (s.HitBlock? <==> shown == Table([], true))
          && (s.EmptyPage? <==> shown == Table([], false))
          && (s.NoValidRows? <==> shown.Table? && shown.rows != [] && Rows.PageAssignments(shown.rows) == [])
          && (s.ExtractionFailed? <==> shown.Fault?))
    && (s.Advanced? || s.NoNextPage? ==> (s.NoNextPage? <==> !Clicked(b, c.click)))
  }

  /** How a pass that saved a batch moved the totals and the run of pages without new records. */
  ghost predicate Counts(cfg: Config, p: Pass)
  {
    var c, s := p.before, p.step;
    && (s.Advanced? ==>
          && s.cursor.totals == Plus(c.totals, s.added, s.updated, |s.batch|)
          && s.cursor.noNew == ZeroRun(c.noNew, [s.added])
          && !(s.added == 0 && s.cursor.noNew >= cfg.noNewLimit))
    && (s.NoNewRecords? ==>
          s.totals == Plus(c.totals, 0, s.updated, |s.batch|) && ZeroRun(c.noNew, [0]) >= cfg.noNewLimit)
    && (s.NoNextPage? ==>
          && s.totals == Plus(c.totals, s.added, s.updated, |s.batch|)
          && !(s.added == 0 && ZeroRun(c.noNew, [s.added]) >= cfg.noNewLimit))
  }

  /** The batch a pass saved is what `extract_rows` and `process_rows` make of the table on screen. */
  ghost predicate Reads(b: Browser, p: Pass)
  {
    var c, s := p.before, p.step;
    s.Advanced? || s.NoNewRecords? || s.NoNextPage? ==>
      ShownAt(b, c.pos).Table? && s.batch == Rows.PageAssignments(ShownAt(b, c.pos).rows) && s.batch != []
  }

  /** Everything the browser and the constants force about one pass, whatever the store holds. */
  ghost predicate Sound(b: Browser, cfg: Config, p: Pass)
  {
    Moves(b, p) && Causes(b, cfg, p) && Counts(cfg, p) && Reads(b, p)
  }

  /** A trace the loop can produce from cursor `c`: passes chained one page on, until a stop or page `max_pages + 1`. */
  ghost predicate Chain(b: Browser, cfg: Config, c: Cursor, t: seq<Pass>)
    decreases |t|
  {
    if t == [] then c.page > cfg.maxPages
    else
      && t[0].before == c && c.page <= cfg.maxPages && Moves(b, t[0])
      && if t[0].step.Advanced? then Chain(b, cfg, t[0].step.cursor, t[1..]) else t[1..] == []
  }

  /** Every pass of `t` stopped, if it did, for the reasons `Causes` gives. */
  ghost predicate Explained(b: Browser, cfg: Config, t: seq<Pass>)
    decreases |t|
  {
    t == [] || (Causes(b, cfg, t[0]) && Explained(b, cfg, t[1..]))
  }

  /** Every pass of `t` counted as `Counts` says. */
  ghost predicate Counted(cfg: Config, t: seq<Pass>)
    decreases |t|
  {
    t == [] || (Counts(cfg, t[0]) && Counted(cfg, t[1..]))
  }

  /** Every pass of `t` saved the rows on screen. */
  ghost predicate Read(b: Browser, t: seq<Pass>)
    decreases |t|
  {
    t == [] || (Reads(b, t[0]) && Read(b, t[1..]))
  }

  // ---------------------------------------------------------------------
  // One pass

  /** The tail of a pass after the upsert, on the disk the upsert and the count left. */
  lemma BatchLog(d: Disk, clock: Clock, b: Browser, cfg: Config, sid: int, c: Cursor,
                 batch: seq<Row>, added: nat, updated: nat)
    requires cfg.Valid()
    ensures var s := AfterBatch(d, clock, b, cfg, sid, c, batch, added, updated);
      var totals := Plus(c.totals, added, updated, |batch|);
      var d' := Resolve(d, c, s).1;
      && (s.Advanced? || s.NoNewRecords? || s.NoNextPage?)
      && (s.Advanced? ==> && s.batch == batch && s.added == added && s.updated == updated
                          && s.cursor.totals == totals && s.cursor.noNew == ZeroRun(c.noNew, [added]))
      && (s.NoNewRecords? ==> s.batch == batch && s.updated == updated && s.totals == totals && added == 0)
      && (s.NoNextPage? ==> s.batch == batch && s.added == added && s.updated == updated && s.totals == totals
                            && !Clicked(b, c.click))
      && (s.NoNewRecords? <==> added == 0 && ZeroRun(c.noNew, [added]) >= cfg.noNewLimit)
      && Logged(d, d', PageLog(sid, cfg, c, s)[1..])
  {
    var s := AfterBatch(d, clock, b, cfg, sid, c, batch, added, updated);
    var totals := Plus(c.totals, added, updated, |batch|);
    assert ZeroRun(c.noNew, [added]) == if added == 0 then c.noNew + 1 else 0;
    if !s.NoNewRecords? {
      var progressed := AfterUpdate(d, sid, ProgressAt(totals, c.page));
      var saved := if c.page % cfg.checkpointEvery == 0 then AfterSaveCheckpoint(progressed, clock, sid, c.page, totals.records)
        else progressed;
      var tail := [SessionUpdated(sid, ProgressAt(totals, c.page))] + Periodic(sid, cfg, c.page, totals.records);
      assert Resolve(d, c, s).1 == saved;
      assert PageLog(sid, cfg, c, s) == [Upserted(batch, added, updated)] + tail;
      assert PageLog(sid, cfg, c, s)[1..] == tail;
      QuietTally(tail);
      assert AssignmentCount(saved) == AssignmentCount(d);
      if c.page % cfg.checkpointEvery == 0 {
        CheckpointRoundTrip(progressed, clock, sid, c.page, totals.records);
        assert LastSaved(tail, CurrentCheckpoint(d)) == Some(Position(sid, c.page, totals.records));
      } else {
        assert LastSaved(tail, CurrentCheckpoint(d)) == LastSaved([], CurrentCheckpoint(d));
      }
    } else {
      assert PageLog(sid, cfg, c, s)[1..] == [];
    }
  }

  /** What one pass logs, and what decided how it ended. */
  ghost predicate PassFacts(d: Disk, clock: Clock, b: Browser, cfg: Config, sid: int, c: Cursor)
    requires cfg.Valid()
  {
    var s := PageStep(d, clock, b, cfg, sid, c);
    Logged(d, Resolve(d, c, s).1, PageLog(sid, cfg, c, s)) && Sound(b, cfg, Pass(c, s))
  }

  /** A pass that saves a batch. */
  lemma BatchPassLog(d: Disk, clock: Clock, b: Browser, cfg: Config, sid: int, c: Cursor)
    requires cfg.Valid() && c.inSession + 1 <= cfg.rotateEvery
    requires ShownAt(b, c.pos).Table? && ShownAt(b, c.pos).rows != []
    requires Rows.PageAssignments(ShownAt(b, c.pos).rows) != []
    ensures PassFacts(d, clock, b, cfg, sid, c)
  {
    var s := PageStep(d, clock, b, cfg, sid, c);
    var batch := Rows.PageAssignments(ShownAt(b, c.pos).rows);
    var u := AfterUpsert(d, clock, batch);
    var counted := AfterCount(u.disk);
    assert s == AfterBatch(counted, clock, b, cfg, sid, c, batch, u.added, u.updated);
    UpsertBookkeeping(d, clock, batch);
    var up := [Upserted(batch, u.added, u.updated)];
    assert up[..0] == [];
    assert LastSaved(up, CurrentCheckpoint(d)) == CurrentCheckpoint(d);
    assert Tally(up).added == u.added;
    assert Logged(d, counted, up);
    BatchLog(counted, clock, b, cfg, sid, c, batch, u.added, u.updated);
    var log := PageLog(sid, cfg, c, s);
    assert log == up + log[1..];
    LoggedChain(d, counted, Resolve(d, c, s).1, up, log[1..]);
  }

  /** Every pass logs its calls as `PageLog` says. */
  lemma StepLog(d: Disk, clock: Clock, b: Browser, cfg: Config, sid: int, c: Cursor)
    requires cfg.Valid()
    ensures PassFacts(d, clock, b, cfg, sid, c)
  {
    if c.inSession + 1 > cfg.rotateEvery {
      CheckpointRoundTrip(d, clock, sid, c.page, c.totals.records);
    } else if ShownAt(b, c.pos).Table? && ShownAt(b, c.pos).rows == [] {
      if ShownAt(b, c.pos).cloudflare {
        CheckpointRoundTrip(d, clock, sid, c.page, c.totals.records);
      }
    } else if ShownAt(b, c.pos).Table? && Rows.PageAssignments(ShownAt(b, c.pos).rows) != [] {
      BatchPassLog(d, clock, b, cfg, sid, c);
    }
  }

  // ---------------------------------------------------------------------
  // The log of one pass, summarised

  /** What a pass that ended as `s` counts as upserted. */
  ghost function Sent(s: Step): Totals
  {
    match s
    case Advanced(_, _, batch, added, updated) => Totals(added, updated, |batch|)
    case NoNewRecords(_, batch, updated, _) => Totals(0, updated, |batch|)
    case NoNextPage(_, batch, added, updated, _) => Totals(added, updated, |batch|)
    case _ => Totals(0, 0, 0)
  }

  /** The `added` count a pass that ended as `s` sees, if it upserted. */
  ghost function SentAdded(s: Step): seq<nat>
  {
    match s
    case Advanced(_, _, _, added, _) => [added]
    case NoNewRecords(_, _, _, _) => [0]
    case NoNextPage(_, _, added, _, _) => [added]
    case _ => []
  }

  /** The log ends with an upsert: the session stopped right after saving a page, for duplicates. */
  ghost predicate EndsOnUpsert(log: seq<Call>)
  {
    log != [] && log[|log| - 1].Upserted?
  }

  /** The stops that save a checkpoint on the way out. */
  predicate SavesOnExit(s: Step)
  {
    s.Rotated? || s.HitBlock?
  }

  /** The totals `t` plus the counts in `u`. */
  function Sum(t: Totals, u: Totals): Totals
  {
    Plus(t, u.added, u.updated, u.records)
  }

  /** Every call of a pass is an upsert or names the session. */
  lemma PageLogCalls(sid: int, cfg: Config, c: Cursor, s: Step)
    requires cfg.Valid()
    ensures var log := PageLog(sid, cfg, c, s); forall i :: 0 <= i < |log| ==> OfSession(log[i], sid)
  {
  }

  /** What the upserts and progress updates of a pass add up to. */
  lemma PageLogCounts(sid: int, cfg: Config, c: Cursor, s: Step)
    requires cfg.Valid()
    ensures var log := PageLog(sid, cfg, c, s);
      && Tally(log) == Sent(s)
      && Addeds(log) == SentAdded(s)
      && UpdatedPages(log) == (if s.Advanced? || s.NoNextPage? then [c.page] else [])
      && (EndsOnUpsert(log) <==> s.NoNewRecords?)
  {
    var log := PageLog(sid, cfg, c, s);
    match s
    case Advanced(next, _, batch, added, updated) =>
      RecordedPassCounts(sid, cfg, c.page, next.totals, batch, added, updated);
    case NoNextPage(_, batch, added, updated, totals) =>
      RecordedPassCounts(sid, cfg, c.page, totals, batch, added, updated);
    case NoNewRecords(_, batch, updated, _) =>
      assert log[..0] == [];
    case Rotated(_) =>
      assert log[..0] == [];
    case HitBlock(_) =>
      assert log[..0] == [];
    case _ =>
  }

  /** The `added` counts a pass shows, and whether its log ends on the upsert. */
  lemma PageLogAddeds(sid: int, cfg: Config, c: Cursor, s: Step)
    requires cfg.Valid()
    ensures var log := PageLog(sid, cfg, c, s);
      Addeds(log) == SentAdded(s) && (EndsOnUpsert(log) <==> s.NoNewRecords?)
  {
    PageLogCounts(sid, cfg, c, s);
  }

  /** The counts of a pass that saved a batch and recorded its progress. */
  lemma RecordedPassCounts(sid: int, cfg: Config, page: int, totals: Totals, batch: seq<Row>, added: nat, updated: nat)
    requires cfg.Valid()
    ensures var log := [Upserted(batch, added, updated), SessionUpdated(sid, ProgressAt(totals, page))]
        + Periodic(sid, cfg, page, totals.records);
      && Tally(log) == Totals(added, updated, |batch|)
      && Addeds(log) == [added]
      && UpdatedPages(log) == [page]
      && !EndsOnUpsert(log) && log != []
  {
    var head := [Upserted(batch, added, updated), SessionUpdated(sid, ProgressAt(totals, page))];
    var tail := Periodic(sid, cfg, page, totals.records);
    assert head[..1] == [Upserted(batch, added, updated)];
    assert head[..1][..0] == [];
    TallyConcat(head, tail);
    AddedsConcat(head, tail);
    UpdatedPagesConcat(head, tail);
    QuietTally(tail);
    if tail != [] {
      assert tail[..0] == [];
    }
  }

  /** The calls of a pass that recorded its page upsert exactly its batch. */
  lemma RecordedPassBatches(sid: int, cfg: Config, page: int, totals: Totals, batch: seq<Row>, added: nat, updated: nat)
    requires cfg.Valid()
    ensures Batches([Upserted(batch, added, updated), SessionUpdated(sid, ProgressAt(totals, page))]
                    + Periodic(sid, cfg, page, totals.records)) == [batch]
  {
    var head := [Upserted(batch, added, updated), SessionUpdated(sid, ProgressAt(totals, page))];
    var tail := Periodic(sid, cfg, page, totals.records);
    BatchesConcat(head, tail);
    assert head[..1][..0] == [];
    if tail != [] {
      assert tail[..0] == [];
    }
  }

  /** The batch a pass upserts, if any. */
  lemma BatchesOfPass(sid: int, cfg: Config, c: Cursor, s: Step)
    requires cfg.Valid()
    ensures Batches(PageLog(sid, cfg, c, s)) ==
      if s.Advanced? || s.NoNewRecords? || s.NoNextPage? then [s.batch] else []
  {
    var log := PageLog(sid, cfg, c, s);
    match s
    case Advanced(next, _, batch, added, updated) =>
      RecordedPassBatches(sid, cfg, c.page, next.totals, batch, added, updated);
    case NoNextPage(_, batch, added, updated, totals) =>
      RecordedPassBatches(sid, cfg, c.page, totals, batch, added, updated);
    case NoNewRecords(_, batch, updated, _) =>
      assert log[..0] == [];
    case Rotated(_) =>
      assert log[..0] == [];
    case HitBlock(_) =>
      assert log[..0] == [];
    case _ =>
  }

  /** Where the checkpoints of a pass sit. */
  lemma PageLogCheckpoints(sid: int, cfg: Config, c: Cursor, s: Step)
    requires cfg.Valid() && (s.Advanced? || s.NoNextPage? ==> s.batch != [])
    ensures var log := PageLog(sid, cfg, c, s);
      && (SavesOnExit(s) ==> log == [CheckpointSaved(sid, c.page, c.totals.records)])
      && (!SavesOnExit(s) ==> PeriodicOnly(log, sid, cfg.checkpointEvery))
  {
  }

  // ---------------------------------------------------------------------
  // From the loop to its trace

  /** The loop is its trace: it returns what the trace ends in, and the trace is one the loop can produce. */
  lemma {:induction false} TraceSpec(d: Disk, clock: Clock, b: Browser, cfg: Config, sid: int, c: Cursor)
    requires cfg.Valid()
    ensures var t := Trace(d, clock, b, cfg, sid, c);
      && Chain(b, cfg, c, t) && Explained(b, cfg, t) && Counted(cfg, t) && Read(b, t)
      && SessionLoop(d, clock, b, cfg, sid, c).0 == Ending(c, t)
    decreases Remaining(cfg, c)
  {
    if c.page <= cfg.maxPages {
      var s := PageStep(d, clock, b, cfg, sid, c);
      StepLog(d, clock, b, cfg, sid, c);
      var t := Trace(d, clock, b, cfg, sid, c);
      if s.Advanced? {
        TraceSpec(s.disk, clock, b, cfg, sid, s.cursor);
        assert t[1..] == Trace(s.disk, clock, b, cfg, sid, s.cursor);
      } else {
        assert t == [Pass(c, s)];
        assert t[1..] == [];
      }
    }
  }

  /** The loop's calls are exactly the trace's log, with its effect on the store size and the checkpoint. */
  lemma {:induction false} SessionLogged(d: Disk, clock: Clock, b: Browser, cfg: Config, sid: int, c: Cursor)
    requires cfg.Valid()
    ensures Logged(d, SessionLoop(d, clock, b, cfg, sid, c).1, SessionLog(d, clock, b, cfg, sid, c))
    decreases Remaining(cfg, c)
  {
    var t := Trace(d, clock, b, cfg, sid, c);
    if c.page > cfg.maxPages {
      assert d.calls + [] == d.calls;
    } else {
      var s := PageStep(d, clock, b, cfg, sid, c);
      StepLog(d, clock, b, cfg, sid, c);
      var x := PageLog(sid, cfg, c, s);
      assert Logged(d, Resolve(d, c, s).1, x);
      if s.Advanced? {
        assert t[1..] == Trace(s.disk, clock, b, cfg, sid, s.cursor);
        assert SessionLoop(d, clock, b, cfg, sid, c) == SessionLoop(s.disk, clock, b, cfg, sid, s.cursor);
        assert SessionLog(d, clock, b, cfg, sid, c) == x + SessionLog(s.disk, clock, b, cfg, sid, s.cursor);
        SessionLogged(s.disk, clock, b, cfg, sid, s.cursor);
        LoggedChain(d, s.disk, SessionLoop(s.disk, clock, b, cfg, sid, s.cursor).1,
          x, SessionLog(s.disk, clock, b, cfg, sid, s.cursor));
      } else {
        assert t == [Pass(c, s)] && t[1..] == [];
        assert SessionLoop(d, clock, b, cfg, sid, c).1 == Resolve(d, c, s).1;
        assert LogOf(sid, cfg, t) == x + LogOf(sid, cfg, []);
        assert x + [] == x;
      }
    }
  }

  // ---------------------------------------------------------------------
  // Traces

  /** The first pass of a trace, and how the rest of the trace hangs off it. */
  lemma TraceHead(b: Browser, cfg: Config, sid: int, c: Cursor, t: seq<Pass>)
    requires cfg.Valid() && Chain(b, cfg, c, t) && t != []
    ensures t[0].before == c && c.page <= cfg.maxPages && Moves(b, t[0])
    ensures t[0].step.Advanced? ==>
      && Chain(b, cfg, t[0].step.cursor, t[1..])
      && LogOf(sid, cfg, t) == PageLog(sid, cfg, c, t[0].step) + LogOf(sid, cfg, t[1..])
      && Ending(c, t) == Ending(t[0].step.cursor, t[1..])
    ensures !t[0].step.Advanced? ==>
      LogOf(sid, cfg, t) == PageLog(sid, cfg, c, t[0].step) && Ending(c, t) == Outcome(c, t[0].step)
  {
    if !t[0].step.Advanced? {
      assert t[1..] == [];
      assert PageLog(sid, cfg, c, t[0].step) + [] == PageLog(sid, cfg, c, t[0].step);
    }
  }

  lemma {:induction false} TraceCallsOfSession(b: Browser, cfg: Config, sid: int, c: Cursor, t: seq<Pass>)
    requires cfg.Valid() && Chain(b, cfg, c, t)
    ensures var log := LogOf(sid, cfg, t); forall i :: 0 <= i < |log| ==> OfSession(log[i], sid)
    decreases |t|
  {
    if t != [] {
      TraceHead(b, cfg, sid, c, t);
      PageLogCalls(sid, cfg, c, t[0].step);
      if t[0].step.Advanced? {
        TraceCallsOfSession(b, cfg, sid, t[0].step.cursor, t[1..]);
        var x, y := PageLog(sid, cfg, c, t[0].step), LogOf(sid, cfg, t[1..]);
        assert forall i :: 0 <= i < |x + y| ==> (x + y)[i] == if i < |x| then x[i] else y[i - |x|];
      }
    }
  }

  lemma {:induction false} TraceTotals(b: Browser, cfg: Config, sid: int, c: Cursor, t: seq<Pass>)
    requires cfg.Valid() && Chain(b, cfg, c, t) && Counted(cfg, t)
    ensures Ending(c, t).Returned? ==> Ending(c, t).totals == Sum(c.totals, Tally(LogOf(sid, cfg, t)))
    decreases |t|
  {
    if t != [] {
      TraceHead(b, cfg, sid, c, t);
      PageLogCounts(sid, cfg, c, t[0].step);
      if t[0].step.Advanced? {
        TraceTotals(b, cfg, sid, t[0].step.cursor, t[1..]);
        TallyConcat(PageLog(sid, cfg, c, t[0].step), LogOf(sid, cfg, t[1..]));
      }
    }
  }

  lemma {:induction false} TracePages(b: Browser, cfg: Config, sid: int, c: Cursor, t: seq<Pass>)
    requires cfg.Valid() && Chain(b, cfg, c, t)
    ensures var o, pages := Ending(c, t), UpdatedPages(LogOf(sid, cfg, t));
      && (forall i :: 0 <= i < |pages| ==> pages[i] == c.page + i)
      && (o.Returned? ==>
            || o.page == c.page + |pages|
            || (|pages| > 0 && o.page == c.page + |pages| - 1 && o.disposition == Done))
      && (o.Returned? && o.page > cfg.maxPages ==> o.disposition == Done)
    decreases |t|
  {
    if t != [] {
      TraceHead(b, cfg, sid, c, t);
      PageLogCounts(sid, cfg, c, t[0].step);
      if t[0].step.Advanced? {
        TracePages(b, cfg, sid, t[0].step.cursor, t[1..]);
        UpdatedPagesConcat(PageLog(sid, cfg, c, t[0].step), LogOf(sid, cfg, t[1..]));
      }
    }
  }

  /** The checkpoints a trace saves are as `ExitSaved` says. */
  lemma {:induction false} TraceCheckpoints(b: Browser, cfg: Config, sid: int, c: Cursor, t: seq<Pass>)
    requires cfg.Valid() && Chain(b, cfg, c, t) && Read(b, t)
    ensures ExitSaved(Ending(c, t), LogOf(sid, cfg, t), sid, cfg.checkpointEvery)
    decreases |t|
  {
    if t != [] {
      TraceHead(b, cfg, sid, c, t);
      var x := PageLog(sid, cfg, c, t[0].step);
      assert && (SavesOnExit(t[0].step) ==> x == [CheckpointSaved(sid, c.page, c.totals.records)])
             && (!SavesOnExit(t[0].step) ==> PeriodicOnly(x, sid, cfg.checkpointEvery)) by {
        assert Reads(b, t[0]);
        PageLogCheckpoints(sid, cfg, c, t[0].step);
      }
      if t[0].step.Advanced? {
        assert Read(b, t[1..]);
        TraceCheckpoints(b, cfg, sid, t[0].step.cursor, t[1..]);
        ExitSavedConcat(Ending(c, t), x, LogOf(sid, cfg, t[1..]), sid, cfg.checkpointEvery);
      } else if SavesOnExit(t[0].step) {
        assert x[..0] == [];
      }
    }
  }

  /**
   * How a run that returned `o` with the calls `log` leaves its
   * checkpoints: a "blocked" or "rotate" return ends the log on the
   * checkpoint of the returned page and record count, after periodic saves
   * only; any other outcome leaves periodic saves only.
   */
  ghost predicate ExitSaved(o: SessionOutcome, log: seq<Call>, sid: int, every: int)
    requires every > 0
  {
    var exit := o.Returned? && o.disposition != Done;
    && (exit ==>
          && |log| > 0 && log[|log| - 1] == CheckpointSaved(sid, o.page, o.totals.records)
          && PeriodicOnly(log[..|log| - 1], sid, every))
    && (!exit ==> PeriodicOnly(log, sid, every))
  }

  /** Periodic saves in front of a log keep what `ExitSaved` says about it. */
  lemma ExitSavedConcat(o: SessionOutcome, x: seq<Call>, y: seq<Call>, sid: int, every: int)
    requires every > 0 && PeriodicOnly(x, sid, every) && ExitSaved(o, y, sid, every)
    ensures ExitSaved(o, x + y, sid, every)
  {
    if o.Returned? && o.disposition != Done {
      assert (x + y)[..|x + y| - 1] == x + y[..|y| - 1];
      assert (x + y)[|x + y| - 1] == y[|y| - 1];
      PeriodicConcat(x, y[..|y| - 1], sid, every);
    } else {
      PeriodicConcat(x, y, sid, every);
    }
  }


  /** The `i`-th pass of a trace starts `i` pages, positions and session pages on, and all but the last went on. */
  lemma {:induction false} TraceIndex(b: Browser, cfg: Config, c: Cursor, t: seq<Pass>, i: int)
    requires Chain(b, cfg, c, t) && 0 <= i < |t|
    ensures var p := t[i].before;
      && p.page == c.page + i && p.pos == c.pos + i && p.inSession == c.inSession + i
      && p.click == c.click + i && p.page <= cfg.maxPages
      && Moves(b, t[i]) && (i < |t| - 1 ==> t[i].step.Advanced?)
      && (i == |t| - 1 && t[i].step.Advanced? ==> t[i].step.cursor.page > cfg.maxPages)
    decreases i
  {
    if i > 0 {
      assert t[0].step.Advanced?;
      TraceIndex(b, cfg, t[0].step.cursor, t[1..], i - 1);
      assert t[1..][i - 1] == t[i];
    } else if |t| > 1 {
      assert t[0].step.Advanced?;
    }
  }

  /** Each pass of an explained trace stopped for the reasons `Causes` gives. */
  lemma {:induction false} ExplainedAt(b: Browser, cfg: Config, t: seq<Pass>, i: int)
    requires Explained(b, cfg, t) && 0 <= i < |t|
    ensures Causes(b, cfg, t[i])
    decreases i
  {
    if i > 0 {
      ExplainedAt(b, cfg, t[1..], i - 1);
      assert t[1..][i - 1] == t[i];
    }
  }

  /** Each pass of a trace that read the screen saved the rows it showed. */
  lemma {:induction false} ReadAt(b: Browser, t: seq<Pass>, i: int)
    requires Read(b, t) && 0 <= i < |t|
    ensures Reads(b, t[i])
    decreases i
  {
    if i > 0 {
      ReadAt(b, t[1..], i - 1);
      assert t[1..][i - 1] == t[i];
    }
  }

  /** A trace returns what its last pass decided, and records one page per pass that got to record one. */
  lemma {:induction false} TraceEnd(b: Browser, cfg: Config, sid: int, c: Cursor, t: seq<Pass>)
    requires cfg.Valid() && Chain(b, cfg, c, t) && t != []
    ensures var last := t[|t| - 1];
      && Ending(c, t) == (if last.step.Advanced? then Returned(last.step.cursor.page, last.step.cursor.totals, Done)
                          else Outcome(last.before, last.step))
      && |UpdatedPages(LogOf(sid, cfg, t))| == |t| - 1 + (if last.step.Advanced? || last.step.NoNextPage? then 1 else 0)
    decreases |t|
  {
    TraceHead(b, cfg, sid, c, t);
    PageLogCounts(sid, cfg, c, t[0].step);
    if t[0].step.Advanced? {
      var c' := t[0].step.cursor;
      UpdatedPagesConcat(PageLog(sid, cfg, c, t[0].step), LogOf(sid, cfg, t[1..]));
      if t[1..] != [] {
        TraceEnd(b, cfg, sid, c', t[1..]);
        assert t[1..][|t[1..]| - 1] == t[|t| - 1];
      } else {
        assert |t| == 1;
      }
    }
  }

  /** The `j`-th "next" click from cursor `c` on succeeded. */
  ghost predicate ClickedAt(b: Browser, c: Cursor, j: int)
  {
    j >= 0 && Clicked(b, c.click + j)
  }

  /** The first `n` "next" clicks from cursor `c` on all succeeded. */
  ghost predicate ClickedBefore(b: Browser, c: Cursor, n: int)
  {
    forall j :: 0 <= j < n ==> ClickedAt(b, c, j)
  }

  /**
   * The `j`-th page from cursor `c` on came below the session limit and
   * showed a table with at least one valid row: no reason to stop there
   * before the upsert.
   */
  ghost predicate PassedAt(b: Browser, cfg: Config, c: Cursor, j: int)
  {
    var shown := ShownAt(b, c.pos + j);
    j >= 0 && c.inSession + j + 1 <= cfg.rotateEvery && shown.Table? && Rows.PageAssignments(shown.rows) != []
  }

  /** The first `n` pages from cursor `c` on all passed. */
  ghost predicate PassedBefore(b: Browser, cfg: Config, c: Cursor, n: int)
  {
    forall j :: 0 <= j < n ==> PassedAt(b, cfg, c, j)
  }

  /**
   * The disposition a run that started from cursor `c` returns when it
   * stops `j` pages on, decided by that page: past `max_pages` it is
   * "completed"; over the session limit "rotate"; on an empty table under
   * a Cloudflare title "blocked"; otherwise "completed", on an empty table,
   * on a table with no valid row, or on a saved batch after which the
   * duplicate limit was reached (`dup`) or the click to the next page failed.
   */
  ghost predicate StopReason(b: Browser, cfg: Config, c: Cursor, j: int, disposition: Disposition, dup: bool)
  {
    var shown := ShownAt(b, c.pos + j);
    if c.page + j > cfg.maxPages then disposition == Done
    else if c.inSession + j + 1 > cfg.rotateEvery then disposition == Rotate
    else if shown == Table([], true) then disposition == Blocked
    else
      && disposition == Done
      && (|| shown == Table([], false)
          || (shown.Table? && shown.rows != [] && Rows.PageAssignments(shown.rows) == [])
          || (shown.Table? && Rows.PageAssignments(shown.rows) != [] && (dup || !ClickedAt(b, c, j))))
  }

  /**
   * Why a run that started from cursor `c` and made the calls `log` ended
   * as `o`: every page before the one it stopped on passed and its click
   * succeeded, so the run stops at the first page that gives a reason to,
   * and that page decided the disposition as `StopReason` says; an
   * exception comes from a failed extraction at the position after the
   * recorded pages, below the page and session limits.
   */
  ghost predicate StoppedFor(b: Browser, cfg: Config, c: Cursor, o: SessionOutcome, log: seq<Call>)
  {
    var n := |UpdatedPages(log)|;
    && (o.Returned? ==>
          && c.page <= o.page && ClickedBefore(b, c, o.page - c.page) && PassedBefore(b, cfg, c, o.page - c.page)
          && StopReason(b, cfg, c, o.page - c.page, o.disposition, EndsOnUpsert(log)))
    && (o.Raised? ==>
          && c.page + n <= cfg.maxPages && c.inSession + n + 1 <= cfg.rotateEvery
          && ShownAt(b, c.pos + n).Fault? && ClickedBefore(b, c, n) && PassedBefore(b, cfg, c, n))
  }

  /** A trace whose last pass stopped for duplicates ends its log on that upsert. */
  lemma {:induction false} TraceEndsOnUpsert(b: Browser, cfg: Config, sid: int, c: Cursor, t: seq<Pass>)
    requires cfg.Valid() && Chain(b, cfg, c, t) && t != [] && t[|t| - 1].step.NoNewRecords?
    ensures EndsOnUpsert(LogOf(sid, cfg, t))
    decreases |t|
  {
    TraceHead(b, cfg, sid, c, t);
    var x := PageLog(sid, cfg, c, t[0].step);
    if t[0].step.Advanced? {
      assert t[1..][|t[1..]| - 1] == t[|t| - 1];
      TraceEndsOnUpsert(b, cfg, sid, t[0].step.cursor, t[1..]);
      var y := LogOf(sid, cfg, t[1..]);
      assert (x + y)[|x + y| - 1] == y[|y| - 1];
    }
  }

  /** Every pass of a trace but a last one that stopped clicked "next". */
  lemma TraceClicked(b: Browser, cfg: Config, c: Cursor, t: seq<Pass>)
    requires Chain(b, cfg, c, t) && t != []
    ensures ClickedBefore(b, c, if t[|t| - 1].step.Advanced? then |t| else |t| - 1)
  {
    forall i | 0 <= i < |t| - 1
      ensures t[i].step.Advanced?
    {
      TraceIndex(b, cfg, c, t, i);
    }
    TraceClicks(b, cfg, c, t, if t[|t| - 1].step.Advanced? then |t| else |t| - 1);
  }

  /** Every pass of a trace but a last one that stopped passed its page. */
  lemma TracePassed(b: Browser, cfg: Config, c: Cursor, t: seq<Pass>)
    requires Chain(b, cfg, c, t) && Explained(b, cfg, t) && t != []
    ensures PassedBefore(b, cfg, c, if t[|t| - 1].step.Advanced? then |t| else |t| - 1)
  {
    forall j | 0 <= j < (if t[|t| - 1].step.Advanced? then |t| else |t| - 1)
      ensures PassedAt(b, cfg, c, j)
    {
      TraceIndex(b, cfg, c, t, j);
      ExplainedAt(b, cfg, t, j);
    }
  }

  /** Every pass of a trace before index `n` went on after a successful click. */
  lemma TraceClicks(b: Browser, cfg: Config, c: Cursor, t: seq<Pass>, n: int)
    requires Chain(b, cfg, c, t) && n <= |t| && forall i :: 0 <= i < n ==> t[i].step.Advanced?
    ensures ClickedBefore(b, c, n)
  {
    forall j | 0 <= j < n
      ensures ClickedAt(b, c, j)
    {
      TraceIndex(b, cfg, c, t, j);
    }
  }

  /** How the last pass of a trace, `k` pages on from cursor `c`, decided the outcome. */
  lemma LastPassStop(b: Browser, cfg: Config, c: Cursor, k: nat, last: Pass, dup: bool, o: SessionOutcome)
    requires cfg.Valid()
    requires last.before.page == c.page + k && last.before.pos == c.pos + k
    requires last.before.inSession == c.inSession + k && last.before.click == c.click + k
    requires last.before.page <= cfg.maxPages
    requires Moves(b, last) && Causes(b, cfg, last) && Reads(b, last)
    requires last.step.Advanced? ==> last.step.cursor.page > cfg.maxPages
    requires last.step.NoNewRecords? ==> dup
    requires o == if last.step.Advanced? then Returned(last.step.cursor.page, last.step.cursor.totals, Done)
                  else Outcome(last.before, last.step)
    ensures o.Returned? ==>
      && o.page == c.page + (if last.step.Advanced? then k + 1 else k)
      && StopReason(b, cfg, c, if last.step.Advanced? then k + 1 else k, o.disposition, dup)
    ensures o.Raised? ==>
      && !last.step.Advanced? && !last.step.NoNextPage?
      && ShownAt(b, c.pos + k).Fault? && c.inSession + k + 1 <= cfg.rotateEvery
  {
  }

  /** The facts about a trace's last pass that make up `StoppedFor`. */
  lemma StoppedForLast(b: Browser, cfg: Config, c: Cursor, o: SessionOutcome, log: seq<Call>, k: nat, m: nat)
    requires ClickedBefore(b, c, m) && PassedBefore(b, cfg, c, m)
    requires o.Returned? ==> o.page == c.page + m && StopReason(b, cfg, c, m, o.disposition, EndsOnUpsert(log))
    requires o.Raised? ==>
      && m == k && |UpdatedPages(log)| == k && c.page + k <= cfg.maxPages
      && c.inSession + k + 1 <= cfg.rotateEvery && ShownAt(b, c.pos + k).Fault?
    ensures StoppedFor(b, cfg, c, o, log)
  {
  }

  /** Why a trace stopped: the screen, the counters and the clicks at the page it stopped on, as `StoppedFor` says. */
  lemma {:induction false} TraceStopCauses(b: Browser, cfg: Config, sid: int, c: Cursor, t: seq<Pass>)
    requires cfg.Valid() && Chain(b, cfg, c, t) && Explained(b, cfg, t) && Read(b, t)
    ensures StoppedFor(b, cfg, c, Ending(c, t), LogOf(sid, cfg, t))
  {
    if t != [] {
      var k := |t| - 1;
      TraceLastStop(b, cfg, sid, c, t);
      TraceClicked(b, cfg, c, t);
      TracePassed(b, cfg, c, t);
      StoppedForLast(b, cfg, c, Ending(c, t), LogOf(sid, cfg, t), k, if t[k].step.Advanced? then k + 1 else k);
    }
  }

  /** What the last pass of a trace, at offset `|t| - 1` from its start, makes of the outcome. */
  lemma TraceLastStop(b: Browser, cfg: Config, sid: int, c: Cursor, t: seq<Pass>)
    requires cfg.Valid() && Chain(b, cfg, c, t) && Explained(b, cfg, t) && Read(b, t) && t != []
    ensures var k, o, log := |t| - 1, Ending(c, t), LogOf(sid, cfg, t);
      && (o.Returned? ==>
            && o.page == c.page + (if t[k].step.Advanced? then k + 1 else k)
            && StopReason(b, cfg, c, if t[k].step.Advanced? then k + 1 else k, o.disposition, EndsOnUpsert(log)))
      && (o.Raised? ==>
            && !t[k].step.Advanced? && |UpdatedPages(log)| == k && c.page + k <= cfg.maxPages
            && c.inSession + k + 1 <= cfg.rotateEvery && ShownAt(b, c.pos + k).Fault?)
  {
    var k := |t| - 1;
    var last := t[k];
    TraceIndex(b, cfg, c, t, k);
    TraceEnd(b, cfg, sid, c, t);
    ExplainedAt(b, cfg, t, k);
    ReadAt(b, t, k);
    if last.step.NoNewRecords? {
      TraceEndsOnUpsert(b, cfg, sid, c, t);
    }
    LastPassStop(b, cfg, c, k, last, EndsOnUpsert(LogOf(sid, cfg, t)), Ending(c, t));
  }




  /** `batch` is what `extract_rows` and `process_rows` make of the table at position `pos`, and is not empty. */
  ghost predicate ShowsBatch(b: Browser, pos: int, batch: seq<Row>)
  {
    ShownAt(b, pos).Table? && batch == Rows.PageAssignments(ShownAt(b, pos).rows) && batch != []
  }

  /** Batch `i` of `batches` is what the screen at browser position `pos + i` showed. */
  ghost predicate BatchesShown(b: Browser, pos: int, batches: seq<seq<Row>>)
  {
    forall i :: 0 <= i < |batches| ==> ShowsBatch(b, pos + i, batches[i])
  }

  /** Page by page, the batches a trace upserts are what the screens it read showed. */
  lemma {:induction false} TraceBatches(b: Browser, cfg: Config, sid: int, c: Cursor, t: seq<Pass>)
    requires cfg.Valid() && Chain(b, cfg, c, t) && Read(b, t)
    ensures BatchesShown(b, c.pos, Batches(LogOf(sid, cfg, t)))
  {
    var sent := Batches(LogOf(sid, cfg, t));
    forall i | 0 <= i < |sent|
      ensures ShowsBatch(b, c.pos + i, sent[i])
    {
      TraceBatchAt(b, cfg, sid, c, t, i);
    }
  }

  /** The `i`-th batch a trace upserts is what the `i`-th screen it read showed. */
  lemma {:induction false} TraceBatchAt(b: Browser, cfg: Config, sid: int, c: Cursor, t: seq<Pass>, i: int)
    requires cfg.Valid() && Chain(b, cfg, c, t) && Read(b, t)
    requires 0 <= i < |Batches(LogOf(sid, cfg, t))|
    ensures ShowsBatch(b, c.pos + i, Batches(LogOf(sid, cfg, t))[i])
  {
    TraceBatchSteps(b, cfg, sid, c, t);
    TraceIndex(b, cfg, c, t, i);
    ReadAt(b, t, i);
    var p := t[i];
    assert Batches(LogOf(sid, cfg, t))[i] == p.step.batch;
    assert p.before.pos == c.pos + i;
  }

  /** The `i`-th batch a trace upserts is the batch of its `i`-th pass. */
  lemma {:induction false} TraceBatchSteps(b: Browser, cfg: Config, sid: int, c: Cursor, t: seq<Pass>)
    requires cfg.Valid() && Chain(b, cfg, c, t)
    ensures var sent := Batches(LogOf(sid, cfg, t));
      && |sent| <= |t|
      && forall i :: 0 <= i < |sent| ==>
           (t[i].step.Advanced? || t[i].step.NoNewRecords? || t[i].step.NoNextPage?) && sent[i] == t[i].step.batch
    decreases |t|
  {
    if t != [] {
      TraceHead(b, cfg, sid, c, t);
      BatchesOfPass(sid, cfg, c, t[0].step);
      if t[0].step.Advanced? {
        TraceBatchSteps(b, cfg, sid, t[0].step.cursor, t[1..]);
        BatchesConcat(PageLog(sid, cfg, c, t[0].step), LogOf(sid, cfg, t[1..]));
        var sent, rest := Batches(LogOf(sid, cfg, t)), Batches(LogOf(sid, cfg, t[1..]));
        assert sent == [t[0].step.batch] + rest;
        forall i | 0 <= i < |sent|
          ensures (t[i].step.Advanced? || t[i].step.NoNewRecords? || t[i].step.NoNextPage?) && sent[i] == t[i].step.batch
        {
          if i > 0 {
            assert sent[i] == rest[i - 1] && t[1..][i - 1] == t[i];
          }
        }
      }
    }
  }

  /** The last upsert of `log` added nothing and brought the run of such pages, counted from `start`, to `limit`. */
  ghost predicate StopsOnDuplicates(log: seq<Call>, start: nat, limit: int)
  {
    |Addeds(log)| > 0 && Addeds(log)[|Addeds(log)| - 1] == 0 && ZeroRun(start, Addeds(log)) >= limit
  }

  /** No upsert of `log` brought the run to `limit`, except a last upsert the log ends on. */
  ghost predicate NoEarlyDuplicateStop(log: seq<Call>, start: nat, limit: int)
  {
    forall k :: 0 <= k < |Addeds(log)| && (k < |Addeds(log)| - 1 || !EndsOnUpsert(log)) ==>
      !(Addeds(log)[k] == 0 && ZeroRun(start, Addeds(log)[..k + 1]) >= limit)
  }

  /** A trace whose log ends on an upsert stopped for duplicates: the last page added nothing and the run reached the limit. */
  lemma {:induction false} TraceDuplicates(b: Browser, cfg: Config, sid: int, c: Cursor, t: seq<Pass>)
    requires cfg.Valid() && Chain(b, cfg, c, t) && Counted(cfg, t)
    ensures var o, log := Ending(c, t), LogOf(sid, cfg, t);
      EndsOnUpsert(log) ==>
        o.Returned? && o.disposition == Done && StopsOnDuplicates(log, c.noNew, cfg.noNewLimit)
    decreases |t|
  {
    if t != [] {
      TraceHead(b, cfg, sid, c, t);
      var s := t[0].step;
      var x := PageLog(sid, cfg, c, s);
      assert Addeds(x) == SentAdded(s) && (EndsOnUpsert(x) <==> s.NoNewRecords?) by {
        PageLogCounts(sid, cfg, c, s);
      }
      if s.Advanced? {
        var y := LogOf(sid, cfg, t[1..]);
        TraceDuplicates(b, cfg, sid, s.cursor, t[1..]);
        assert Counts(cfg, t[0]);
        if EndsOnUpsert(x + y) {
          assert y != [];
          assert (x + y)[|x + y| - 1] == y[|y| - 1];
          DuplicateStopCarries(x, y, c.noNew, s.cursor.noNew, s.added, cfg.noNewLimit);
        }
      }
    }
  }

  /** A duplicate stop of a log stays one when a page that upserted `added` records is put in front of it. */
  lemma DuplicateStopCarries(x: seq<Call>, y: seq<Call>, start: nat, next: nat, added: nat, limit: int)
    requires Addeds(x) == [added] && next == ZeroRun(start, [added])
    requires StopsOnDuplicates(y, next, limit)
    ensures StopsOnDuplicates(x + y, start, limit)
  {
    AddedsConcat(x, y);
    ZeroRunConcat(start, [added], Addeds(y));
  }


  /** The `added` counts along a log whose duplicate check passed: all of them, less a last upsert the check stopped on. */
  ghost function Checked(log: seq<Call>): seq<nat>
  {
    var ups := Addeds(log);
    if EndsOnUpsert(log) && ups != [] then ups[..|ups| - 1] else ups
  }

  /** No page before the last one of a trace hit the duplicate limit, nor did the last one unless the trace stopped for it. */
  lemma {:induction false} TraceNoEarlyStop(b: Browser, cfg: Config, sid: int, c: Cursor, t: seq<Pass>)
    requires cfg.Valid() && Chain(b, cfg, c, t) && Counted(cfg, t)
    ensures UnderLimit(c.noNew, Checked(LogOf(sid, cfg, t)), cfg.noNewLimit)
    decreases |t|
  {
    if t != [] {
      TraceHead(b, cfg, sid, c, t);
      var s := t[0].step;
      var x := PageLog(sid, cfg, c, s);
      PageLogAddeds(sid, cfg, c, s);
      if s.Advanced? {
        var y := LogOf(sid, cfg, t[1..]);
        TraceNoEarlyStop(b, cfg, sid, s.cursor, t[1..]);
        CheckedConcat(x, y, s.added);
        UnderLimitCons(c.noNew, s.added, Checked(y), cfg.noNewLimit);
      } else if s.NoNewRecords? {
        assert Addeds(x)[..0] == [];
      }
    }
  }

  /** A log whose checked counts stay under the limit stopped for duplicates at most on its last upsert. */
  lemma {:induction false} CheckedMeans(log: seq<Call>, start: nat, limit: int)
    requires UnderLimit(start, Checked(log), limit)
    ensures NoEarlyDuplicateStop(log, start, limit)
  {
    var ups, checked := Addeds(log), Checked(log);
    UnderLimitMeans(start, checked, limit);
    forall k | 0 <= k < |ups| && (k < |ups| - 1 || !EndsOnUpsert(log))
      ensures !(ups[k] == 0 && ZeroRun(start, ups[..k + 1]) >= limit)
    {
      assert k < |checked| && checked[k] == ups[k] && checked[..k + 1] == ups[..k + 1];
    }
  }

  /** Checking a pass that went on, then the rest. */
  lemma CheckedConcat(x: seq<Call>, y: seq<Call>, added: nat)
    requires Addeds(x) == [added] && !EndsOnUpsert(x)
    ensures Checked(x + y) == [added] + Checked(y)
  {
    AddedsConcat(x, y);
    var ups, rest := Addeds(x + y), Addeds(y);
    if y == [] {
      assert x + y == x;
    } else {
      assert (x + y)[|x + y| - 1] == y[|y| - 1];
      if EndsOnUpsert(y) && rest != [] {
        assert ups[..|ups| - 1] == [added] + rest[..|rest| - 1];
      }
    }
  }



}
