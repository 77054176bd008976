/** The arithmetic of `main_loop` and `process_manga`: the empty-catalog-page
    counter with its page wrap-around, and the length of the pacing wait. */
module Paging {

  /** `self.MAX_CATALOG_PAGES`. */
  const MaxCatalogPages := 100
  /** `max_page_attempts` of `main_loop`. */
  const MaxPageAttempts := 3
  /** Bounds of the reading speed `get_reading_speed` accepts, in chapters per hour. */
  const MinSpeed := 1
  const MaxSpeed := 666

  /** `(current_page, page_attempts)` after a catalog page without titles
      (allbrowser.py:843-855): the counter goes up; on the third empty page in
      a row the page resets to 1 and the counter to 0; otherwise the page
      advances, wrapping from the last page to 1. */
  function AfterEmptyPage(page: int, attempts: nat): (r: (int, nat))
    ensures r.1 < MaxPageAttempts && r.0 <= MaxCatalogPages
    ensures 1 <= page ==> 1 <= r.0
    ensures r.1 == 0 <==> attempts + 1 >= MaxPageAttempts
    ensures r.1 == 0 ==> r.0 == 1
    ensures r.1 != 0 ==> r.1 == attempts + 1 && (page < MaxCatalogPages ==> r.0 == page + 1)
    ensures page >= MaxCatalogPages ==> r.0 == 1
  {
    if attempts + 1 >= MaxPageAttempts then (1, 0)
    else (if page < MaxCatalogPages then page + 1 else 1, attempts + 1)
  }

  /** `(current_page, page_attempts)` after `n` empty catalog pages in a row. */
  function EmptyRun(page: int, attempts: nat, n: nat): (int, nat)
    decreases n
  {
    if n == 0 then (page, attempts)
    else
      var r := AfterEmptyPage(page, attempts);
      EmptyRun(r.0, r.1, n - 1)
  }

  /** From a counter below its threshold, the counter after `n` empty pages is
      the number of empty pages modulo the threshold, and the page stays in range. */
  lemma {:induction false} EmptyRunCounter(page: int, attempts: nat, n: nat)
    requires attempts < MaxPageAttempts
    requires 1 <= page <= MaxCatalogPages
    ensures var r := EmptyRun(page, attempts, n);
      r.1 == (attempts + n) % MaxPageAttempts && 1 <= r.0 <= MaxCatalogPages
    decreases n
  {
    if n > 0 {
      var r := AfterEmptyPage(page, attempts);
      EmptyRunCounter(r.0, r.1, n - 1);
      assert r.1 == (attempts + 1) % MaxPageAttempts;
    }
  }

  /** Every third consecutive empty page, counted from a fresh counter, puts
      the bot back on page 1 with a fresh counter, whatever page it started on. */
  lemma {:induction false} EmptyRunResets(page: int, k: nat)
    requires k >= 1
    ensures EmptyRun(page, 0, 3 * k) == (1, 0)
    decreases k
  {
    var r1 := AfterEmptyPage(page, 0);
    var r2 := AfterEmptyPage(r1.0, r1.1);
    assert EmptyRun(page, 0, 3 * k) == EmptyRun(r1.0, r1.1, 3 * k - 1);
    assert EmptyRun(r1.0, r1.1, 3 * k - 1) == EmptyRun(r2.0, r2.1, 3 * k - 2);
    assert EmptyRun(r2.0, r2.1, 3 * k - 2) == EmptyRun(1, 0, 3 * (k - 1));
    if k > 1 {
      EmptyRunResets(1, k - 1);
    }
  }

  /** The number of one-second polls of the pacing wait (allbrowser.py:760-767)
      under an ideal clock: the wait lasts `3600 / speed` seconds and polls at
      seconds 0, 1, ... while less than that has elapsed, i.e. the ceiling. */
  function PacingPolls(speed: int): (n: nat)
    requires 1 <= speed
    ensures n * speed >= 3600 && (n - 1) * speed < 3600
  {
    var q := (3600 + speed - 1) / speed;
    var r := (3600 + speed - 1) % speed;
    assert q * speed + r == 3600 + speed - 1 && 0 <= r < speed;
    assert (q - 1) * speed == q * speed - speed;
    q
  }

  lemma MulCancel(x: int, y: int, b: int)
    requires b > 0 && x * b < y * b
    ensures x < y
  {
    assert (y - x) * b == y * b - x * b;
  }

  /** A faster reading speed never waits longer between chapters. */
  lemma PacingMonotone(a: int, b: int)
    requires 1 <= a <= b
    ensures PacingPolls(b) <= PacingPolls(a)
  {
    var n, m := PacingPolls(a), PacingPolls(b);
    assert n * b - n * a == n * (b - a);
    assert n * b >= 3600;
    MulCancel(m - 1, n, b);
  }

  /** Over the accepted speeds the wait is at least 6 and at most 3600 polls. */
  lemma PacingBounds(speed: int)
    requires MinSpeed <= speed <= MaxSpeed
    ensures 6 <= PacingPolls(speed) <= 3600
  {
    PacingMonotone(speed, MaxSpeed);
    PacingMonotone(MinSpeed, speed);
    assert PacingPolls(MaxSpeed) == 6;
    assert PacingPolls(MinSpeed) == 3600;
  }
}
