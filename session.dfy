/** One iteration of `main_loop` (allbrowser.py:830-862) as a relation
    between the state before and after it: `random.choice` may pick any of
    the listed titles. */
module Session {
  import opened Wrappers
  import opened Links
  import opened Paging
  import opened Schedule
  import opened Keys

  /** Python's `if self.current_manga`: `None` and the empty string are false. */
  predicate Truthy(manga: Option<string>)
  {
    manga.Some? && manga.value != ""
  }

  /** One pass of the body of `while not self.user_interrupt`, with
      `attempts` the local `page_attempts`:
      - with a current title, `process_manga` runs, its result is ignored and
        the title is cleared;
      - otherwise the catalog page is fetched; without titles the empty-page
        counter moves on; with titles one of them becomes the current title
        at volume 1, chapter 1, and the counter restarts. */
  predicate MainStep(s: State, w: World, attempts: nat, polls: nat, s': State, w': World, attempts': nat)
    ensures MainStep(s, w, attempts, polls, s', w', attempts') ==>
      && s.processed <= s'.processed && (s.interrupt ==> s'.interrupt)
      && (Truthy(s.manga) ==> s'.manga.None?)
      && (!Truthy(s.manga) ==> s'.processed == s.processed && |w'.catalogPages| <= |w.catalogPages|)
  {
    if Truthy(s.manga) then
      var r := ProcessManga(s, w, s.manga.value, polls);
      s' == r.s.(manga := None) && w' == r.w && attempts' == attempts
    else
      var (page, w1) := w.NextCatalogPage();
      && w' == w1
      && match GetMangaFromCatalog(page)
         case None =>
           var (p, a) := AfterEmptyPage(s.page, attempts);
           s' == s.(page := p) && attempts' == a
         case Some(titles) =>
           && attempts' == 0 && s'.manga.Some? && s'.manga.value in titles
           && s' == s.(manga := s'.manga, volume := 1, chapter := 1)
  }

  /** What an iteration keeps: processed chapters are never forgotten, the
      counter stays below its threshold, a page in 1..100 stays in range, a
      stop request is never withdrawn; a title that was processed is
      cleared, and a title that is picked is a real slug of the fetched
      catalog page. */
  lemma MainStepPreserves(s: State, w: World, attempts: nat, polls: nat, s': State, w': World, attempts': nat)
    requires MainStep(s, w, attempts, polls, s', w', attempts')
    ensures s.processed <= s'.processed
    ensures attempts < MaxPageAttempts ==> attempts' < MaxPageAttempts
    ensures 1 <= s.page <= MaxCatalogPages ==> 1 <= s'.page <= MaxCatalogPages
    ensures s.interrupt ==> s'.interrupt
    ensures Truthy(s.manga) ==> s'.manga == None && s'.page == s.page
    ensures !Truthy(s.manga) ==> s'.processed == s.processed && s'.interrupt == s.interrupt
    ensures !Truthy(s.manga) && s'.manga.Some? && s'.manga != s.manga ==>
      var page := w.NextCatalogPage().0;
      && page.Elements? && s'.manga.value in CatalogSlugs(page.hrefs)
      && s'.manga.value != "" && s'.manga.value != "manga" && '/' !in s'.manga.value
      && s'.volume == 1 && s'.chapter == 1 && attempts' == 0
  {
    if !Truthy(s.manga) {
      var page := w.NextCatalogPage().0;
      if GetMangaFromCatalog(page).Some? {
        CatalogSlugsMembers(page.hrefs, s'.manga.value);
      }
    }
  }

  /** A title abandoned at a key press is not resumed: the next iteration
      selects from the catalog, with the switch request cleared. */
  lemma AbandonedTitleIsNotResumed(s: State, w: World, attempts: nat, polls: nat, s': State, w': World, attempts': nat)
    requires Truthy(s.manga) && MainStep(s, w, attempts, polls, s', w', attempts')
    requires ProcessManga(s, w, s.manga.value, polls).aborted
    ensures !Truthy(s'.manga) && !s'.switching
  {
  }

  /** A run of `main_loop`: the state, the world and `page_attempts` before
      each iteration and after the last. */
  type Trail = seq<(State, World, nat)>

  /** One turn of `while not self.user_interrupt`: the listener's latest
      action lands, the test passes, and the body runs. */
  predicate LoopStep(s: State, w: World, attempts: nat, polls: nat, s': State, w': World, attempts': nat)
    ensures LoopStep(s, w, attempts, polls, s', w', attempts') ==>
      !s.interrupt && !Poll(s, w).0.interrupt && s.processed <= s'.processed
  {
    var (p, pw) := Poll(s, w);
    !p.interrupt && MainStep(p, pw, attempts, polls, s', w', attempts')
  }

  /** A 'q' pressed before the loop test ends `main_loop` there: no catalog
      page is fetched and no title is picked, whatever the state was. */
  lemma QuitEndsMainLoop(s: State, w: World, attempts: nat, polls: nat, s': State, w': World, attempts': nat)
    requires |w.keys| > 0 && w.keys[0] == Quit
    ensures Poll(s, w).0.interrupt
    ensures !LoopStep(s, w, attempts, polls, s', w', attempts')
  {
  }

  /** What a turn keeps: the step's invariants, before and after the poll of the test. */
  lemma LoopStepPreserves(s: State, w: World, attempts: nat, polls: nat, s': State, w': World, attempts': nat)
    requires LoopStep(s, w, attempts, polls, s', w', attempts')
    ensures !s.interrupt && s.processed <= s'.processed
    ensures attempts < MaxPageAttempts ==> attempts' < MaxPageAttempts
    ensures 1 <= s.page <= MaxCatalogPages ==> 1 <= s'.page <= MaxCatalogPages
  {
    var (p, pw) := Poll(s, w);
    MainStepPreserves(p, pw, attempts, polls, s', w', attempts');
  }

  /** Each entry of the trail follows from the one before it by one turn of the loop. */
  ghost predicate Chain(trail: Trail, polls: nat)
  {
    forall k :: 0 <= k < |trail| - 1 ==>
      LoopStep(trail[k].0, trail[k].1, trail[k].2, polls, trail[k + 1].0, trail[k + 1].1, trail[k + 1].2)
  }

  /** A trail extended by one iteration from its last entry is still a chain. */
  lemma ChainExtend(trail: Trail, polls: nat, next: (State, World, nat))
    requires |trail| >= 1 && Chain(trail, polls)
    requires var last := trail[|trail| - 1];
      LoopStep(last.0, last.1, last.2, polls, next.0, next.1, next.2)
    ensures Chain(trail + [next], polls)
  {
    var t := trail + [next];
    forall k | 0 <= k < |t| - 1
      ensures LoopStep(t[k].0, t[k].1, t[k].2, polls, t[k + 1].0, t[k + 1].1, t[k + 1].2)
    {
      if k < |trail| - 1 {
        assert t[k] == trail[k] && t[k + 1] == trail[k + 1];
      } else {
        assert t[k] == trail[|trail| - 1] && t[k + 1] == next;
      }
    }
  }

  /** Over any number of iterations: processed chapters are never forgotten,
      the counter stays below its threshold, the catalog page stays in
      1..100, and a stop request is never withdrawn. */
  lemma {:induction false} ChainKeeps(trail: Trail, polls: nat)
    requires |trail| >= 1 && Chain(trail, polls)
    ensures var first, last := trail[0], trail[|trail| - 1];
      && first.0.processed <= last.0.processed
      && (first.0.interrupt ==> last.0.interrupt)
      && (first.2 < MaxPageAttempts && 1 <= first.0.page <= MaxCatalogPages ==>
            last.2 < MaxPageAttempts && 1 <= last.0.page <= MaxCatalogPages)
    decreases |trail|
  {
    if |trail| > 1 {
      var init := trail[..|trail| - 1];
      assert Chain(init, polls) by {
        forall k | 0 <= k < |init| - 1
          ensures LoopStep(init[k].0, init[k].1, init[k].2, polls, init[k + 1].0, init[k + 1].1, init[k + 1].2)
        {
          assert init[k] == trail[k] && init[k + 1] == trail[k + 1];
        }
      }
      ChainKeeps(init, polls);
      var n := |trail| - 1;
      assert LoopStep(trail[n - 1].0, trail[n - 1].1, trail[n - 1].2, polls, trail[n].0, trail[n].1, trail[n].2);
      LoopStepPreserves(trail[n - 1].0, trail[n - 1].1, trail[n - 1].2, polls, trail[n].0, trail[n].1, trail[n].2);
    }
  }

  /** A title page linking chapter (1, 2) of `slug` before chapter (1, 1),
      as a page listing the newest chapter first does. */
  function TwoChapterPage(slug: string): Page
  {
    Elements([ChapterUrl(slug, 1, 2), ChapterUrl(slug, 1, 1)])
  }

  /** The links are parsed in page order and then sorted. */
  lemma TwoChapterPageParses(slug: string)
    requires '/' !in slug
    ensures ChapterPairs(TwoChapterPage(slug).hrefs) == [(1, 2), (1, 1)]
    ensures GetChapters(TwoChapterPage(slug)) == Some([(1, 1), (1, 2)])
  {
    var u11, u12 := ChapterUrl(slug, 1, 1), ChapterUrl(slug, 1, 2);
    ChapterLinkOfUrl(slug, 1, 1);
    ChapterLinkOfUrl(slug, 1, 2);
    assert [u12, u11][1..] == [u11] && [u11][1..] == [];
    assert ChapterPairs([u11]) == [(1, 1)];
    assert ChapterPairs([u12, u11]) == [(1, 2), (1, 1)];
    assert SortUnique([(1, 2), (1, 1)]) == [(1, 1), (1, 2)] by {
      assert [(1, 2), (1, 1)][1..] == [(1, 1)] && [(1, 1)][1..] == [];
      assert SortUnique([(1, 1)]) == [(1, 1)];
      assert Insert((1, 2), [(1, 1)]) == [(1, 1)] + Insert((1, 2), []);
    }
  }

  lemma TwoTitleCatalogParses(a: string, b: string)
    requires a != "" && a != "manga" && '/' !in a
    requires b != "" && b != "manga" && '/' !in b
    ensures GetMangaFromCatalog(Elements([MangaUrl(a), MangaUrl(b)])) == Some([a, b])
  {
    CatalogSlugOfUrl(a);
    CatalogSlugOfUrl(b);
    assert [MangaUrl(a), MangaUrl(b)][1..] == [MangaUrl(b)] && [MangaUrl(b)][1..] == [];
    assert CatalogSlugs([]) == [];
    assert CatalogSlugs([MangaUrl(b)]) == [b] + CatalogSlugs([]);
    assert CatalogSlugs([MangaUrl(a), MangaUrl(b)]) == [a] + CatalogSlugs([MangaUrl(b)]);
    assert [a] + ([b] + []) == [a, b];
  }

  /** The first read of the scenario below: the chapter is recorded and the
      hint is the next chapter. */
  lemma ScenarioFirstRead(s: State, a: string)
    requires '/' !in a && !s.interrupt && !s.switching && s.processed == {}
    ensures var page := TwoChapterPage(a);
      var r := ReadChapter(s, World([page, page], [], [Opened(10), Failed], []), a, 1, 1);
      && r == Read(s.(processed := {ChapterKey(a, 1, 1)}), World([page], [], [Failed], []), Some(page))
      && Hint(r, 1, 1) == Some((1, 2))
  {
    var page := TwoChapterPage(a);
    TwoChapterPageParses(a);
    WatchWithoutKeys(s, World([page, page], [], [Failed], []), 10);
  }

  /** The second turn of the pass below: (1, 2) is unread, its visit fails,
      and nothing is recorded. */
  lemma ScenarioSecondTurn(s: State, a: string, polls: nat)
    requires !s.interrupt && !s.switching && s.processed == {ChapterKey(a, 1, 1)}
    ensures var page := TwoChapterPage(a);
      PassTurn(s, World([page], [], [Failed], []), a, [(1, 1), (1, 2)], 1, polls)
        == Turn(s.(volume := 1, chapter := 2), World([page], [], [], []), false, Some((1, 2)))
  {
    var w1 := World([TwoChapterPage(a)], [], [Failed], []);
    if ChapterKey(a, 1, 2) == ChapterKey(a, 1, 1) {
      ChapterKeyInjective(a, 1, 2, a, 1, 1);
    }
    assert Checkpoint(s, w1) == Step(s, w1, false);
  }

  /** The pass of the scenario below: both chapters are handed to
      `read_chapter`, only the first is recorded, and the position ends on
      the second. */
  lemma ScenarioPass(s: State, a: string, polls: nat)
    requires '/' !in a && !s.interrupt && !s.switching && s.processed == {}
    ensures var page := TwoChapterPage(a);
      Pass(s, World([page, page], [], [Opened(10), Failed], []), a, [(1, 1), (1, 2)], 0, polls)
        == Run(s.(volume := 1, chapter := 2, processed := {ChapterKey(a, 1, 1)}), World([page], [], [], []), false, [(1, 1), (1, 2)])
  {
    var page := TwoChapterPage(a);
    var list := [(1, 1), (1, 2)];
    var w0 := World([page, page], [], [Opened(10), Failed], []);
    var w1 := World([page], [], [Failed], []);
    var w2 := World([page], [], [], []);
    var s1 := s.(volume := 1, chapter := 1);
    var s2 := s1.(processed := {ChapterKey(a, 1, 1)});
    var s3 := s2.(volume := 1, chapter := 2);
    assert Checkpoint(s, w0) == Step(s, w0, false);
    ScenarioFirstRead(s1, a);
    WaitWithoutKeys(s2, w1, polls);
    assert PassTurn(s, w0, a, list, 0, polls) == Turn(s2, w1, false, Some((1, 1)));
    ScenarioSecondTurn(s2, a, polls);
    assert Pass(s3, w2, a, list, 2, polls) == Run(s3, w2, false, []);
    assert Pass(s2, w1, a, list, 1, polls) == Run(s3, w2, false, [(1, 2)]);
  }

  /** A 'u' pressed during the scroll-through of the first of two unread
      chapters: the first chapter is not recorded, the pacing wait (or, with
      no wait, the next chapter's checkpoint) returns `False`, the second
      chapter is never handed over or opened, and the switch flag is cleared. */
  lemma SwitchDuringScrollAbortsProcessManga(s: State, a: string, polls: nat)
    requires '/' !in a && !s.interrupt && !s.switching && s.processed == {}
    ensures var w := World([TwoChapterPage(a)], [], [Opened(10), Opened(10)], [NoKey, NoKey, Switch]);
      var r := ProcessManga(s, w, a, polls);
      && r.aborted && r.trace == [(1, 1)] && r.s.processed == {}
      && !r.s.switching && !r.s.interrupt && r.w.visits == [Opened(10)]
  {
    var page := TwoChapterPage(a);
    TwoChapterPageParses(a);
    var list := [(1, 1), (1, 2)];
    var w := World([page], [], [Opened(10), Opened(10)], [NoKey, NoKey, Switch]);
    var w1 := World([], [], [Opened(10), Opened(10)], [NoKey, NoKey, Switch]);
    var w2 := World([], [], [Opened(10), Opened(10)], [NoKey, Switch]);
    var w3 := World([], [], [Opened(10), Opened(10)], [Switch]);
    var w4 := World([], [], [Opened(10)], []);
    assert w.NextChapterPage() == (page, w1);
    assert Checkpoint(s, w1) == Step(s, w2, false);
    assert Refetch(Some(list), w2) == (Some(list), w2);
    var s1 := Reposition(s, list);
    var s2 := s1.(volume := 1, chapter := 1);
    assert Checkpoint(s1, w2) == Step(s1, w3, false);
    assert Watch(s2, w3.(visits := [Opened(10)]), 10) == Step(s2.(switching := true), w4, true);
    var rd := ReadChapter(s2, w3, a, 1, 1);
    assert rd == Read(s2.(switching := true), w4, None);
    if polls > 0 {
      CutScrollStopsPassTurn(s1, w2, a, list, 0, polls);
      assert PassTurn(s1, w2, a, list, 0, polls) == Turn(s2, w4, true, Some((1, 1)));
    } else {
      assert PassTurn(s1, w2, a, list, 0, polls) == Turn(rd.s, w4, false, Some((1, 1)));
      assert PassTurn(rd.s, w4, a, list, 1, polls) == Turn(s2, w4, true, None);
    }
    assert Pass(s1, w2, a, list, 0, polls) == Run(s2, w4, true, [(1, 1)]);
    assert RoundTurn(s, w1, a, Some(list), polls) == Lap(s2, w4, true, None, [(1, 1)]);
  }

  /** A title page that does not load, with flags down and nothing read:
      `get_chapters` gives `[(1, 1)]`, so (1, 1) is read and recorded, the
      page fetched after the read does not load either, and `process_manga`
      returns `True` because the list has not grown. */
  lemma UnloadedTitlePageReadsFirstChapter(s: State, a: string, polls: nat)
    requires !s.interrupt && !s.switching && s.processed == {}
    ensures var r := ProcessManga(s, World([LoadFailed, LoadFailed], [], [Opened(10)], []), a, polls);
      && !r.aborted && r.trace == [(1, 1)]
      && r.s == s.(volume := 1, chapter := 1, processed := {ChapterKey(a, 1, 1)})
      && r.w == World([], [], [], [])
  {
    var list := [(1, 1)];
    var w1 := World([LoadFailed], [], [Opened(10)], []);
    var w2 := World([], [], [], []);
    var s1 := s.(volume := 1, chapter := 1);
    var s2 := s1.(processed := {ChapterKey(a, 1, 1)});
    assert World([LoadFailed, LoadFailed], [], [Opened(10)], []).NextChapterPage() == (LoadFailed, w1);
    assert Checkpoint(s, w1) == Step(s, w1, false);
    assert Reposition(s, list) == s1;
    assert Checkpoint(s1, w1) == Step(s1, w1, false);
    WatchWithoutKeys(s1, World([LoadFailed], [], [], []), 10);
    assert ReadChapter(s1, w1, a, 1, 1) == Read(s2, w2, Some(LoadFailed));
    assert PassTurn(s1, w1, a, list, 0, polls) == Turn(s2, w2, false, Some((1, 1)));
    assert Pass(s2, w2, a, list, 1, polls) == Run(s2, w2, false, []);
    assert Pass(s1, w1, a, list, 0, polls) == Run(s2, w2, false, [(1, 1)]);
    assert RoundTurn(s, w1, a, Some(list), polls) == Lap(s2, w2, false, None, [(1, 1)]);
  }

  /** A whole title from catalog selection back to catalog selection: the
      catalog page lists `a` and `b` and `a` is picked, at volume 1, chapter 1;
      the title lists chapters (1, 1) and (1, 2); the first is read and
      recorded with hint (1, 2); the visit of the second fails and records
      nothing; the list has not grown, so `process_manga` returns `True`
      and the loop is back at catalog selection with no title. */
  lemma CatalogToTitleScenario(a: string, b: string, polls: nat)
    requires a != "" && a != "manga" && '/' !in a
    requires b != "" && b != "manga" && '/' !in b
    ensures
      var title := TwoChapterPage(a);
      var catalog := Elements([MangaUrl(a), MangaUrl(b)]);
      var s0 := State(1, None, 1, 1, {}, false, false);
      var w0 := World([title, title, title], [catalog], [Opened(10), Failed], []);
      var s1 := s0.(manga := Some(a));
      var w1 := w0.(catalogPages := []);
      var r := ProcessManga(s1, w1, a, polls);
      && MainStep(s0, w0, 0, polls, s1, w1, 0)
      && !r.aborted && r.trace == [(1, 1), (1, 2)]
      && r.s == s1.(volume := 1, chapter := 2, processed := {ChapterKey(a, 1, 1)})
      && r.w == World([], [], [], [])
      && MainStep(s1, w1, 0, polls, r.s.(manga := None), r.w, 0)
  {
    var title := TwoChapterPage(a);
    TwoTitleCatalogParses(a, b);
    TwoChapterPageParses(a);
    var list := [(1, 1), (1, 2)];
    var s1 := State(1, Some(a), 1, 1, {}, false, false);
    var wr := World([title, title], [], [Opened(10), Failed], []);
    assert World([title, title, title], [], [Opened(10), Failed], []).NextChapterPage() == (title, wr);
    assert Checkpoint(s1, wr) == Step(s1, wr, false);
    assert Refetch(Some(list), wr) == (Some(list), wr);
    assert Reposition(s1, list) == s1;
    ScenarioPass(s1, a, polls);
    var sp := s1.(volume := 1, chapter := 2, processed := {ChapterKey(a, 1, 1)});
    var last := World([], [], [], []);
    assert World([title], [], [], []).NextChapterPage() == (title, last);
    assert RoundTurn(s1, wr, a, Some(list), polls) == Lap(sp, last, false, None, list);
  }
}
