/**
 * The browser as the scraper sees it, reduced to an oracle, together with
 * the scraper's tuning constants, the long-break rule of `random_delay`
 * and the click-through navigation to the resume page.
 */
module Browsing {
  import opened Rows

  /**
   * What extracting the table at one browser position yields: the rows,
   * with whether the page title then contains "Cloudflare", or a failure
   * of the extraction itself.
   */
  datatype Shown = Table(rows: seq<RawRow>, cloudflare: bool) | Fault

  /**
   * One browser session: whether opening it and loading the search page
   * fails, the page shown at each position (position 1 is the first
   * result page), and the outcomes of successive "next page" clicks.
   */
  datatype Browser = Browser(setupFails: bool, pages: seq<Shown>, clicks: seq<bool>)

  /** The page at a position; past the known pages the table is empty. */
  function ShownAt(b: Browser, pos: int): Shown
  {
    if 1 <= pos <= |b.pages| then b.pages[pos - 1] else Table([], false)
  }

  /** The outcome of the `k`-th click of the session (counting from 0); clicks past the known ones fail. */
  predicate Clicked(b: Browser, k: nat)
  {
    k < |b.clicks| && b.clicks[k]
  }

  /**
   * The constants of the loop: `max_pages`, `SESSION_ROTATE_EVERY`,
   * `SAVE_CHECKPOINT_EVERY`, the duplicate threshold and `LONG_BREAK_EVERY`.
   */
  datatype Config = Config(maxPages: int, rotateEvery: int, checkpointEvery: int, noNewLimit: int, longBreakEvery: int)
  {
    /** The two divisors are positive, so `%` never divides by zero. */
    predicate Valid()
    {
      checkpointEvery > 0 && longBreakEvery > 0
    }
  }

  /** The values scraper.py uses. */
  const SourceConfig: Config := Config(1000, 10000, 5, 10, 50)

  lemma SourceConfigValid()
    ensures SourceConfig.Valid()
    ensures SourceConfig.rotateEvery > SourceConfig.maxPages
  {
  }

  // ---------------------------------------------------------------------
  // Long breaks

  /** `random_delay` takes a long break after page `pageNum` exactly when this holds. */
  predicate IsLongBreak(pageNum: int, every: int)
    requires every > 0
  {
    pageNum > 0 && pageNum % every == 0
  }

  lemma MultipleOf(p: int, every: int) returns (a: int)
    requires every > 0 && p % every == 0
    ensures p == a * every
  {
    a := p / every;
  }

  lemma {:induction false} ProductAtLeast(x: int, y: int)
    requires y > 0
    ensures x >= 1 ==> x * y >= y
    decreases if x > 0 then x else 0
  {
    if x > 1 {
      ProductAtLeast(x - 1, y);
      assert x * y == (x - 1) * y + y;
    }
  }

  lemma MultipleHasNoRemainder(k: int, m: int)
    requires m > 0
    ensures (k * m) % m == 0
  {
    var d, r := (k * m) / m, (k * m) % m;
    assert k * m == d * m + r && 0 <= r < m;
    assert r == (k - d) * m;
    ProductAtLeast(k - d, m);
    ProductAtLeast(d - k, m);
    assert (k - d) * m == -((d - k) * m);
  }

  /** Two long breaks are at least `every` pages apart. */
  lemma LongBreaksAreSpaced(p: int, q: int, every: int)
    requires every > 0 && IsLongBreak(p, every) && IsLongBreak(q, every) && p < q
    ensures q - p >= every
  {
    var a := MultipleOf(p, every);
    var c := MultipleOf(q, every);
    assert q - p == (c - a) * every;
    ProductAtLeast(c - a, every);
    ProductAtLeast(a - c, every);
    assert (c - a) * every == -((a - c) * every);
  }

  /** Every run of `every` consecutive pages after a non-negative page holds a long break. */
  lemma LongBreakInEveryWindow(p: int, every: int) returns (q: int)
    requires every > 0 && p >= 0
    ensures p < q <= p + every && IsLongBreak(q, every)
  {
    var a := p / every;
    var r := p % every;
    assert p == a * every + r && 0 <= r < every;
    q := (a + 1) * every;
    assert q == a * every + every;
    MultipleHasNoRemainder(a + 1, every);
  }

  // ---------------------------------------------------------------------
  // Navigation to the resume page

  /**
   * Clicking "next" from position `current` until `target` is reached or a
   * click fails, starting with click `k`: the position reached and the
   * number of clicks used.
   */
  function Reach(b: Browser, target: int, current: int, k: nat): (int, nat)
    decreases target - current
  {
    if current >= target then (current, k)
    else if Clicked(b, k) then Reach(b, target, current + 1, k + 1)
    else (current, k + 1)
  }

  /** Where the resume navigation leaves the browser, and how many clicks it used. */
  function Navigation(b: Browser, startPage: int): (int, nat)
  {
    if startPage > 1 then Reach(b, startPage, 1, 0) else (1, 0)
  }

  /** The navigation loop of `scrape_with_session`. */
  method Navigate(b: Browser, startPage: int) returns (pos: int, used: nat)
    ensures (pos, used) == Navigation(b, startPage)
  {
    pos, used := 1, 0;
    if startPage > 1 {
      while pos < startPage
        invariant 1 <= pos <= startPage && used == pos - 1
        invariant Reach(b, startPage, pos, used) == Reach(b, startPage, 1, 0)
        decreases startPage - pos
      {
        if used < |b.clicks| && b.clicks[used] {
          used := used + 1;
          pos := pos + 1;
        } else {
          used := used + 1;
          return;
        }
      }
    }
  }

  lemma {:induction false} ReachSpec(b: Browser, target: int, current: int, k: nat)
    requires current <= target
    requires k == current - 1
    requires forall j :: 0 <= j < k ==> Clicked(b, j)
    ensures var (pos, used) := Reach(b, target, current, k);
      && current <= pos <= target
      && (forall j :: 0 <= j < pos - 1 ==> Clicked(b, j))
      && (pos == target ==> used == pos - 1)
      && (pos < target ==> used == pos && !Clicked(b, pos - 1))
    decreases target - current
  {
    if current < target && Clicked(b, k) {
      ReachSpec(b, target, current + 1, k + 1);
    }
  }

  /**
   * The navigation makes at most `startPage - 1` advances, each a successful
   * click, and stops at the first failed click; one extra click is used
   * only when it stops short of the start page.
   */
  lemma NavigationSpec(b: Browser, startPage: int)
    ensures var (pos, used) := Navigation(b, startPage);
      && 1 <= pos && (startPage > 1 ==> pos <= startPage) && (startPage <= 1 ==> pos == 1 && used == 0)
      && (forall j :: 0 <= j < pos - 1 ==> Clicked(b, j))
      && (pos == startPage || startPage <= 1 ==> used == pos - 1)
      && (pos < startPage ==> used == pos && !Clicked(b, pos - 1))
  {
    if startPage > 1 {
      ReachSpec(b, startPage, 1, 0);
    }
  }
}
