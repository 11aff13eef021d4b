/**
 * Reading the log of storage calls a run makes: the counts its upserts
 * add up to, the last checkpoint it saves, the pages its progress
 * updates record, and where its checkpoints sit.
 */
module CallLog {
  import opened Wrappers
  import opened Records
  import opened Database
  import opened Pagination

  /** The sums over the upserts of a log: rows added, rows updated, rows sent. */
  ghost function Tally(calls: seq<Call>): Totals
  {
    if calls == [] then Totals(0, 0, 0)
    else
      var t := Tally(calls[..|calls| - 1]);
      match calls[|calls| - 1]
      case Upserted(batch, added, updated) => Plus(t, added, updated, |batch|)
      case _ => t
  }

  /** The position the last checkpoint save of a log records; `none` when the log saves none. */
  ghost function LastSaved(calls: seq<Call>, none: Option<Position>): Option<Position>
  {
    if calls == [] then none
    else
      match calls[|calls| - 1]
      case CheckpointSaved(sid, page, records) => Some(Position(sid, page, records))
      case _ => LastSaved(calls[..|calls| - 1], none)
  }

  /** The `added` counts of the upserts of a log, in order. */
  ghost function Addeds(calls: seq<Call>): seq<nat>
  {
    if calls == [] then []
    else
      var a := Addeds(calls[..|calls| - 1]);
      match calls[|calls| - 1]
      case Upserted(_, added, _) => a + [added]
      case _ => a
  }

  /** The pages the progress updates of a log record, in order. */
  ghost function UpdatedPages(calls: seq<Call>): seq<int>
  {
    if calls == [] then []
    else
      var p := UpdatedPages(calls[..|calls| - 1]);
      match calls[|calls| - 1]
      case SessionUpdated(_, progress) => p + [progress.lastPage]
      case _ => p
  }

  /** The batches of the upserts of a log, in order. */
  ghost function Batches(calls: seq<Call>): seq<seq<Row>>
  {
    if calls == [] then []
    else
      var p := Batches(calls[..|calls| - 1]);
      match calls[|calls| - 1]
      case Upserted(batch, _, _) => p + [batch]
      case _ => p
  }

  /** `consecutive_no_new` after pages with these `added` counts, starting from `start`. */
  ghost function ZeroRun(start: nat, addeds: seq<nat>): nat
  {
    if addeds == [] then start
    else if addeds[|addeds| - 1] == 0 then ZeroRun(start, addeds[..|addeds| - 1]) + 1
    else 0
  }

  /**
   * Page by page from a run of `start`, no page that added nothing brought
   * `consecutive_no_new` to `limit`: the duplicate stop never fired.
   */
  ghost predicate UnderLimit(start: nat, addeds: seq<nat>, limit: int)
    decreases |addeds|
  {
    addeds == [] ||
      var run := ZeroRun(start, [addeds[0]]);
      !(addeds[0] == 0 && run >= limit) && UnderLimit(run, addeds[1..], limit)
  }

  /** A call a session with id `sid` may make: an upsert, or a session or checkpoint call naming `sid`. */
  ghost predicate OfSession(call: Call, sid: int)
  {
    match call
    case Upserted(_, _, _) => true
    case SessionUpdated(id, _) => id == sid
    case CheckpointSaved(id, _, _) => id == sid
    case _ => false
  }

  /** The call at index `i` upserts a non-empty batch. */
  ghost predicate UpsertsAt(calls: seq<Call>, i: int)
  {
    0 <= i < |calls| && calls[i].Upserted? && calls[i].batch != []
  }

  /**
   * The checkpoints of a log all come after a saved page, as
   * `scrape_with_session` writes them: read from the end, each progress
   * update directly follows the upsert of a non-empty batch, each
   * checkpoint directly follows such an upsert and update and repeats the
   * update's page and record count, on a multiple of `every`, and no
   * update on such a page is left without its checkpoint.
   * `PeriodicOnlyMeans` states this by index.
   */
  ghost predicate PeriodicOnly(calls: seq<Call>, sid: int, every: int)
    requires every > 0
    decreases |calls|
  {
    if calls == [] then true
    else
      var n := |calls| - 1;
      match calls[n]
      case CheckpointSaved(id, page, records) =>
        && n > 1 && calls[n - 1].SessionUpdated? && UpsertsAt(calls, n - 2)
        && id == sid && page == calls[n - 1].progress.lastPage && records == calls[n - 1].progress.recordsFound
        && page % every == 0
        && PeriodicOnly(calls[..n - 1], sid, every)
      case SessionUpdated(_, progress) =>
        && UpsertsAt(calls, n - 1) && progress.lastPage % every != 0
        && PeriodicOnly(calls[..n], sid, every)
      case _ => PeriodicOnly(calls[..n], sid, every)
  }

  /** Splitting off the last element of `x + y`. */
  lemma SplitLast<T>(x: seq<T>, y: seq<T>)
    requires y != []
    ensures (x + y)[..|x + y| - 1] == x + y[..|y| - 1]
    ensures (x + y)[|x + y| - 1] == y[|y| - 1]
  {
    assert (x + y)[..|x + y| - 1] == x + y[..|y| - 1];
  }

  lemma {:induction false} TallyConcat(x: seq<Call>, y: seq<Call>)
    ensures Tally(x + y) == Plus(Tally(x), Tally(y).added, Tally(y).updated, Tally(y).records)
    decreases |y|
  {
    if y == [] {
      assert x + y == x;
    } else {
      SplitLast(x, y);
      TallyConcat(x, y[..|y| - 1]);
    }
  }

  lemma {:induction false} LastSavedConcat(x: seq<Call>, y: seq<Call>, none: Option<Position>)
    ensures LastSaved(x + y, none) == LastSaved(y, LastSaved(x, none))
    decreases |y|
  {
    if y == [] {
      assert x + y == x;
    } else {
      SplitLast(x, y);
      LastSavedConcat(x, y[..|y| - 1], none);
    }
  }

  lemma {:induction false} AddedsConcat(x: seq<Call>, y: seq<Call>)
    ensures Addeds(x + y) == Addeds(x) + Addeds(y)
    decreases |y|
  {
    if y == [] {
      assert x + y == x;
    } else {
      SplitLast(x, y);
      AddedsConcat(x, y[..|y| - 1]);
    }
  }

  lemma {:induction false} UpdatedPagesConcat(x: seq<Call>, y: seq<Call>)
    ensures UpdatedPages(x + y) == UpdatedPages(x) + UpdatedPages(y)
    decreases |y|
  {
    if y == [] {
      assert x + y == x;
    } else {
      SplitLast(x, y);
      UpdatedPagesConcat(x, y[..|y| - 1]);
    }
  }

  lemma {:induction false} ZeroRunConcat(start: nat, x: seq<nat>, y: seq<nat>)
    ensures ZeroRun(start, x + y) == ZeroRun(ZeroRun(start, x), y)
    decreases |y|
  {
    if y == [] {
      assert x + y == x;
    } else {
      SplitLast(x, y);
      ZeroRunConcat(start, x, y[..|y| - 1]);
    }
  }

  lemma {:induction false} BatchesConcat(x: seq<Call>, y: seq<Call>)
    ensures Batches(x + y) == Batches(x) + Batches(y)
    decreases |y|
  {
    if y == [] {
      assert x + y == x;
    } else {
      SplitLast(x, y);
      BatchesConcat(x, y[..|y| - 1]);
    }
  }

  lemma {:induction false} PeriodicConcat(x: seq<Call>, y: seq<Call>, sid: int, every: int)
    requires every > 0
    requires PeriodicOnly(x, sid, every) && PeriodicOnly(y, sid, every)
    ensures PeriodicOnly(x + y, sid, every)
    decreases |y|
  {
    if y == [] {
      assert x + y == x;
    } else {
      var n := |y| - 1;
      SplitLast(x, y);
      var z := x + y;
      var m := |z| - 1;
      if y[n].CheckpointSaved? {
        assert z[m - 1] == y[n - 1] && z[m - 2] == y[n - 2];
        assert z[..m - 1] == x + y[..n - 1];
        PeriodicConcat(x, y[..n - 1], sid, every);
      } else {
        if y[n].SessionUpdated? {
          assert z[m - 1] == y[n - 1];
        }
        PeriodicConcat(x, y[..n], sid, every);
      }
    }
  }

  /** Under `PeriodicOnly`, the last checkpoint saved is one of session `sid` on a multiple of `every`. */
  lemma {:induction false} LastSavedPeriodic(calls: seq<Call>, sid: int, every: int, none: Option<Position>)
    requires every > 0 && PeriodicOnly(calls, sid, every)
    ensures var r := LastSaved(calls, none);
      r == none || (r.Some? && r.value.sessionId == sid && r.value.lastPage % every == 0)
    decreases |calls|
  {
    if calls != [] && !calls[|calls| - 1].CheckpointSaved? {
      LastSavedPeriodic(calls[..|calls| - 1], sid, every, none);
    }
  }

  /**
   * `PeriodicOnly` by index: every progress update directly follows the
   * upsert of a non-empty batch; every checkpoint directly follows such an
   * upsert and the update of its own page and record count, on a multiple
   * of `every`; every update on such a page is directly followed by that
   * checkpoint.
   */
  lemma PeriodicOnlyMeans(calls: seq<Call>, sid: int, every: int)
    requires every > 0 && PeriodicOnly(calls, sid, every)
    ensures forall i :: 0 <= i < |calls| && calls[i].SessionUpdated? ==> UpsertsAt(calls, i - 1)
    ensures forall i :: 0 <= i < |calls| && calls[i].CheckpointSaved? ==>
      && 1 < i && calls[i - 1].SessionUpdated? && UpsertsAt(calls, i - 2)
      && calls[i] == CheckpointSaved(sid, calls[i - 1].progress.lastPage, calls[i - 1].progress.recordsFound)
      && calls[i].lastPage % every == 0
    ensures forall i :: 0 <= i < |calls| && calls[i].SessionUpdated? && calls[i].progress.lastPage % every == 0 ==>
      && i + 1 < |calls|
      && calls[i + 1] == CheckpointSaved(sid, calls[i].progress.lastPage, calls[i].progress.recordsFound)
  {
    PeriodicUpdates(calls, sid, every);
    PeriodicCheckpoints(calls, sid, every);
    PeriodicUpdatesSaved(calls, sid, every);
  }

  /** The prefix of `calls` without its last one or two calls. */
  function Init(calls: seq<Call>): (init: seq<Call>)
    requires calls != []
    ensures |init| < |calls| && forall i :: 0 <= i < |init| ==> init[i] == calls[i]
  {
    var n := |calls| - 1;
    if calls[n].CheckpointSaved? && n > 0 then calls[..n - 1] else calls[..n]
  }

  lemma {:induction false} PeriodicUpdates(calls: seq<Call>, sid: int, every: int)
    requires every > 0 && PeriodicOnly(calls, sid, every)
    ensures forall i :: 0 <= i < |calls| && calls[i].SessionUpdated? ==> UpsertsAt(calls, i - 1)
    decreases |calls|
  {
    if calls != [] {
      var init := Init(calls);
      PeriodicUpdates(init, sid, every);
      forall i | 0 <= i < |calls| && calls[i].SessionUpdated?
        ensures UpsertsAt(calls, i - 1)
      {
        if i < |init| {
          assert init[i].SessionUpdated? && UpsertsAt(init, i - 1);
          assert init[i - 1] == calls[i - 1];
        }
      }
    }
  }

  lemma {:induction false} PeriodicCheckpoints(calls: seq<Call>, sid: int, every: int)
    requires every > 0 && PeriodicOnly(calls, sid, every)
    ensures forall i :: 0 <= i < |calls| && calls[i].CheckpointSaved? ==>
      && 1 < i && calls[i - 1].SessionUpdated? && UpsertsAt(calls, i - 2)
      && calls[i] == CheckpointSaved(sid, calls[i - 1].progress.lastPage, calls[i - 1].progress.recordsFound)
      && calls[i].lastPage % every == 0
    decreases |calls|
  {
    if calls != [] {
      var init := Init(calls);
      PeriodicCheckpoints(init, sid, every);
      forall i | 0 <= i < |calls| && calls[i].CheckpointSaved?
        ensures 1 < i && calls[i - 1].SessionUpdated? && UpsertsAt(calls, i - 2)
        ensures calls[i] == CheckpointSaved(sid, calls[i - 1].progress.lastPage, calls[i - 1].progress.recordsFound)
        ensures calls[i].lastPage % every == 0
      {
        if i < |init| {
          assert init[i].CheckpointSaved?;
          assert init[i - 1] == calls[i - 1] && init[i - 2] == calls[i - 2];
        }
      }
    }
  }

  lemma {:induction false} PeriodicUpdatesSaved(calls: seq<Call>, sid: int, every: int)
    requires every > 0 && PeriodicOnly(calls, sid, every)
    ensures forall i :: 0 <= i < |calls| && calls[i].SessionUpdated? && calls[i].progress.lastPage % every == 0 ==>
      && i + 1 < |calls|
      && calls[i + 1] == CheckpointSaved(sid, calls[i].progress.lastPage, calls[i].progress.recordsFound)
    decreases |calls|
  {
    if calls != [] {
      var init := Init(calls);
      PeriodicUpdatesSaved(init, sid, every);
      forall i | 0 <= i < |calls| && calls[i].SessionUpdated? && calls[i].progress.lastPage % every == 0
        ensures i + 1 < |calls|
        ensures calls[i + 1] == CheckpointSaved(sid, calls[i].progress.lastPage, calls[i].progress.recordsFound)
      {
        if i < |init| {
          assert init[i].SessionUpdated?;
          if i + 1 < |init| {
            assert init[i + 1] == calls[i + 1];
          }
        }
      }
    }
  }


  /** A log without upserts adds up to nothing. */
  lemma {:induction false} QuietTally(calls: seq<Call>)
    requires forall i :: 0 <= i < |calls| ==> !calls[i].Upserted?
    ensures Tally(calls) == Totals(0, 0, 0) && Addeds(calls) == []
  {
    if calls != [] {
      QuietTally(calls[..|calls| - 1]);
    }
  }

  /** `UnderLimit` read page by page: at no page `k` did a page without new records bring the run to `limit`. */
  lemma {:induction false} UnderLimitMeans(start: nat, addeds: seq<nat>, limit: int)
    requires UnderLimit(start, addeds, limit)
    ensures forall k :: 0 <= k < |addeds| ==> !(addeds[k] == 0 && ZeroRun(start, addeds[..k + 1]) >= limit)
    decreases |addeds|
  {
    if addeds != [] {
      var run, rest := ZeroRun(start, [addeds[0]]), addeds[1..];
      UnderLimitMeans(run, rest, limit);
      forall k | 0 <= k < |addeds|
        ensures !(addeds[k] == 0 && ZeroRun(start, addeds[..k + 1]) >= limit)
      {
        if k == 0 {
          assert addeds[..1] == [addeds[0]];
        } else {
          assert addeds[..k + 1] == [addeds[0]] + rest[..k];
          ZeroRunConcat(start, [addeds[0]], rest[..k]);
          assert addeds[k] == rest[k - 1] && rest[..k] == rest[..(k - 1) + 1];
        }
      }
    }
  }

  /** The duplicate check on a first page, then on the rest. */
  lemma UnderLimitCons(start: nat, added: nat, rest: seq<nat>, limit: int)
    ensures UnderLimit(start, [added] + rest, limit) <==>
      !(added == 0 && ZeroRun(start, [added]) >= limit) && UnderLimit(ZeroRun(start, [added]), rest, limit)
  {
    assert ([added] + rest)[1..] == rest;
  }
}
