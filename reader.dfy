/** `MangaReader`: the fields the core reads and writes, and its methods as
    the loops and in-place updates of the program, each proved to end in
    the state the functions of `Schedule`, `Session` and `Snapshot` give. */
module Reader {
  import opened Wrappers
  import opened Links
  import opened Keys
  import opened Paging
  import opened Snapshot
  import opened Schedule
  import Session

  class MangaReader {
    var currentPage: int
    var currentManga: Option<string>
    var currentVolume: int
    var currentChapter: int
    var processedChapters: set<string>
    var userInterrupt: bool
    var switchMangaFlag: bool
    var readingSpeed: int
    /** What the browser and the keyboard listener will answer from now on. */
    var world: World

    /** The reading speed is one `get_reading_speed` accepts. */
    predicate Valid()
      reads this
    {
      MinSpeed <= readingSpeed <= MaxSpeed
    }

    function State(): Schedule.State
      reads this
    {
      Schedule.State(currentPage, currentManga, currentVolume, currentChapter, processedChapters,
        userInterrupt, switchMangaFlag)
    }

    function Resume(): Snapshot.Resume
      reads this
    {
      Persisted(State())
    }

    /** The state fields of `__init__` (allbrowser.py:133-147). */
    constructor(world: World)
      ensures Resume() == Initial && !userInterrupt && !switchMangaFlag
      ensures readingSpeed == 60 && this.world == world && Valid()
    {
      currentPage := 1;
      currentManga := None;
      currentVolume := 1;
      currentChapter := 1;
      processedChapters := {};
      userInterrupt := false;
      switchMangaFlag := false;
      readingSpeed := 60;
      this.world := world;
    }

    /** `self.reading_speed = self.get_reading_speed()`: the prompt only
        returns a speed from 1 to 666. */
    method SetReadingSpeed(speed: int)
      requires MinSpeed <= speed <= MaxSpeed
      modifies this
      ensures readingSpeed == speed && Valid()
      ensures State() == old(State()) && world == old(world)
    {
      readingSpeed := speed;
    }

    /** `load_state` on the given state file. */
    method LoadState(file: StateFile) returns (loaded: bool)
      modifies this
      ensures (Resume(), loaded) == Load(old(Resume()), file)
      ensures userInterrupt == old(userInterrupt) && switchMangaFlag == old(switchMangaFlag)
      ensures readingSpeed == old(readingSpeed) && world == old(world)
    {
      if !file.Parsed? || !file.doc.Obj? {
        return false;
      }
      var m := file.doc.fields;
      var page, manga, volume, chapter :=
        IntField(m, "current_page"), MangaField(m), IntField(m, "current_volume"), IntField(m, "current_chapter");
      if page.None? || manga.None? || volume.None? || chapter.None? {
        return false;
      }
      currentPage := page.value;
      currentManga := manga.value;
      currentVolume := volume.value;
      currentChapter := chapter.value;
      var processed := ProcessedField(m);
      if processed.None? {
        return false;
      }
      processedChapters := processed.value;
      return true;
    }

    /** The dictionary `save_state` dumps; `list(processed_chapters)` is
        built element by element, in whatever order the set yields. */
    method SaveState() returns (doc: Value)
      ensures IsSnapshotOf(doc, Resume())
    {
      var rest := processedChapters;
      var listing: seq<string> := [];
      while rest != {}
        invariant rest <= processedChapters
        invariant forall x :: x in listing <==> x in processedChapters - rest
        invariant forall i, j :: 0 <= i < j < |listing| ==> listing[i] != listing[j]
        decreases |rest|
      {
        var x :| x in rest;
        assert x !in listing;
        listing := listing + [x];
        rest := rest - {x};
      }
      doc := SaveDoc(Resume(), listing);
    }

    /** The listener's latest action lands on the flags. */
    method Poll()
      modifies this
      ensures (State(), world) == Schedule.Poll(old(State()), old(world))
      ensures readingSpeed == old(readingSpeed)
    {
      var (key, rest) := world.NextKey();
      world := rest;
      if !userInterrupt {
        match key
        case NoKey =>
        case Quit => userInterrupt := true;
        case Switch => switchMangaFlag := true;
      }
    }

    /** `if self.user_interrupt or self.switch_manga_flag: self.switch_manga_flag = False; return False`. */
    method Checkpoint() returns (stop: bool)
      modifies this
      ensures var r := Schedule.Checkpoint(old(State()), old(world));
        State() == r.s && world == r.w && stop == r.stop
      ensures readingSpeed == old(readingSpeed)
    {
      Poll();
      stop := userInterrupt || switchMangaFlag;
      if stop {
        switchMangaFlag := false;
      }
    }

    /** `self.get_chapters(manga_slug)` on the next title page. */
    method FetchChapters(slug: string) returns (chapters: Option<seq<Pair>>)
      modifies this
      ensures (chapters, world) == (GetChapters(old(world).NextChapterPage().0), old(world).NextChapterPage().1)
      ensures State() == old(State()) && readingSpeed == old(readingSpeed)
    {
      var (page, rest) := world.NextChapterPage();
      world := rest;
      chapters := GetChapters(page);
    }

    /** `self.get_manga_from_catalog(self.current_page)` on the next catalog page. */
    method FetchCatalog() returns (titles: Option<seq<string>>)
      modifies this
      ensures (titles, world) == (GetMangaFromCatalog(old(world).NextCatalogPage().0), old(world).NextCatalogPage().1)
      ensures State() == old(State()) && readingSpeed == old(readingSpeed)
    {
      var (page, rest) := world.NextCatalogPage();
      world := rest;
      titles := GetMangaFromCatalog(page);
    }

    /** `read_chapter(manga_slug, volume, chapter)`. */
    method ReadChapter(slug: string, volume: int, chapter: int) returns (hint: Option<Pair>)
      modifies this
      ensures var r := Schedule.ReadChapter(old(State()), old(world), slug, volume, chapter);
        State() == r.s && world == r.w && hint == Hint(r, volume, chapter)
      ensures readingSpeed == old(readingSpeed)
    {
      var key := ChapterKey(slug, volume, chapter);
      if key in processedChapters {
        return None;
      }
      var (visit, rest) := world.NextVisit();
      world := rest;
      match visit {
        case Failed =>
          return None;
        case Unavailable =>
          processedChapters := processedChapters + {key};
          return None;
        case Opened(steps) =>
          ghost var s0, w0 := State(), world;
          for i := 1 to steps + 1
            invariant State() == s0 && readingSpeed == old(readingSpeed)
            invariant Watch(s0, w0, steps) == Watch(State(), world, steps + 1 - i)
          {
            Poll();
            if userInterrupt || switchMangaFlag {
              return None;
            }
          }
          processedChapters := processedChapters + {key};
          var chapters := FetchChapters(slug);
          hint := None;
          if chapters.Some? && chapters.value != [] {
            match IndexOf(chapters.value, (volume, chapter))
            case Some(index) =>
              if index + 1 < |chapters.value| {
                hint := Some(chapters.value[index + 1]);
              }
            case None =>
          }
      }
    }

    /** The pacing wait: `delay = 3600 / speed` seconds, a flag check and a
        one-second sleep while less than that has elapsed, on an ideal clock. */
    method PacingWait() returns (stop: bool)
      requires Valid()
      modifies this
      ensures var r := Wait(old(State()), old(world), PacingPolls(old(readingSpeed)));
        State() == r.s && world == r.w && stop == r.stop
      ensures readingSpeed == old(readingSpeed)
    {
      ghost var polls := PacingPolls(readingSpeed);
      ghost var s0, w0 := State(), world;
      var elapsed := 0;
      while elapsed * readingSpeed < 3600
        invariant 0 <= elapsed <= polls
        invariant State() == s0 && readingSpeed == old(readingSpeed)
        invariant Watch(s0, w0, polls) == Watch(State(), world, polls - elapsed)
        decreases polls - elapsed
      {
        MulCancel(elapsed, polls, readingSpeed);
        Poll();
        if userInterrupt || switchMangaFlag {
          switchMangaFlag := false;
          return true;
        }
        elapsed := elapsed + 1;
      }
      if elapsed < polls {
        MulCancel(polls - 1, elapsed, readingSpeed);
      }
      return false;
    }

    /** One turn of the `for` loop of `process_manga` (allbrowser.py:741-767):
        the checkpoint, then either the skip of a processed chapter or the
        position update, the read and, unless the chapter is the last, the
        pacing wait. `read` is the chapter handed to `read_chapter`, if any. */
    method PassStep(slug: string, chapters: seq<Pair>, i: nat) returns (stop: bool, ghost read: Option<Pair>)
      requires Valid() && i < |chapters|
      modifies this
      ensures PassTurn(old(State()), old(world), slug, chapters, i, PacingPolls(old(readingSpeed)))
        == Turn(State(), world, stop, read)
      ensures readingSpeed == old(readingSpeed)
    {
      read := None;
      stop := Checkpoint();
      if stop {
        return;
      }
      var p := chapters[i];
      if KeyOf(slug, p) in processedChapters {
        return;
      }
      currentVolume, currentChapter := p.0, p.1;
      var _ := ReadChapter(slug, p.0, p.1);
      read := Some(p);
      if i < |chapters| - 1 {
        stop := PacingWait();
      }
    }

    /** A turn of the `for` loop inside a pass that has handed over `before`
        so far: the pass has ended, or it goes on from index `i + 1`. */
    method PassOn(slug: string, chapters: seq<Pair>, i: nat, ghost pass: Run, ghost before: seq<Pair>)
      returns (stop: bool, ghost read: Option<Pair>)
      requires Valid() && i < |chapters|
      requires pass == Prefixed(before, Pass(State(), world, slug, chapters, i, PacingPolls(readingSpeed)))
      modifies this
      ensures readingSpeed == old(readingSpeed)
      ensures stop ==> pass == Run(State(), world, true, before + Listed(read))
      ensures !stop ==> pass == Prefixed(before + Listed(read), Pass(State(), world, slug, chapters, i + 1, PacingPolls(readingSpeed)))
    {
      ghost var s0, w0 := State(), world;
      stop, read := PassStep(slug, chapters, i);
      PassAfterTurn(pass, before, s0, w0, slug, chapters, i, PacingPolls(readingSpeed), Turn(State(), world, stop, read));
    }

    /** The `for` loop of `process_manga` over `chapters`: `stop` is its
        early `return False`, `read` the chapters handed to `read_chapter`. */
    method PassOver(slug: string, chapters: seq<Pair>) returns (stop: bool, ghost read: seq<Pair>)
      requires Valid()
      modifies this
      ensures Pass(old(State()), old(world), slug, chapters, 0, PacingPolls(old(readingSpeed)))
        == Run(State(), world, stop, read)
      ensures readingSpeed == old(readingSpeed)
    {
      ghost var polls := PacingPolls(readingSpeed);
      ghost var pass := Pass(State(), world, slug, chapters, 0, polls);
      read := [];
      for i := 0 to |chapters|
        invariant readingSpeed == old(readingSpeed)
        invariant pass == Prefixed(read, Pass(State(), world, slug, chapters, i, polls))
      {
        ghost var step;
        stop, step := PassOn(slug, chapters, i, pass, read);
        read := read + Listed(step);
        if stop {
          return;
        }
      }
      assert Pass(State(), world, slug, chapters, |chapters|, polls) == Run(State(), world, false, []);
      assert read + [] == read;
      stop := false;
    }

    /** One turn of the `while True` loop of `process_manga`
        (allbrowser.py:722-783): `stop` is a `return False`; otherwise `next`
        is the longer list the loop goes on with (`continue`), or `None` for
        the `break`. */
    method Round(slug: string, chapters: Option<seq<Pair>>) returns (stop: bool, next: Option<seq<Pair>>, ghost read: seq<Pair>)
      requires Valid()
      modifies this
      ensures RoundTurn(old(State()), old(world), slug, chapters, PacingPolls(old(readingSpeed)))
        == Lap(State(), world, stop, next, read)
      ensures readingSpeed == old(readingSpeed)
    {
      ghost var polls := PacingPolls(readingSpeed);
      ghost var s0, w0 := State(), world;
      read, next := [], None;
      stop := Checkpoint();
      if stop {
        return;
      }
      ghost var s1, w1 := State(), world;
      var list := chapters;
      if list.None? || |list.value| == 0 {
        list := FetchChapters(slug);
        if list.None? || |list.value| == 0 {
          stop := true;
          return;
        }
      }
      assert Refetch(chapters, w1) == (list, world);
      var current := list.value;
      if (currentVolume, currentChapter) !in current {
        currentVolume, currentChapter := current[0].0, current[0].1;
      }
      assert State() == Reposition(s1, current);
      ghost var s2, w2 := State(), world;
      stop, read := PassOver(slug, current);
      if stop {
        assert RoundTurn(s0, w0, slug, chapters, polls) == Lap(State(), world, true, None, read);
        return;
      }
      ghost var s3, w3 := State(), world;
      var updated := FetchChapters(slug);
      if updated.Some? && |updated.value| > |current| {
        next := updated;
      }
      assert RoundTurn(s0, w0, slug, chapters, polls) == Lap(s3, world, false, next, read);
    }

    /** `process_manga(manga_slug)`: `completed` is its result, `trace` the
        chapters it hands to `read_chapter`. */
    method ProcessManga(slug: string) returns (completed: bool, ghost trace: seq<Pair>)
      requires Valid()
      modifies this
      ensures Schedule.ProcessManga(old(State()), old(world), slug, PacingPolls(old(readingSpeed)))
        == Run(State(), world, !completed, trace)
      ensures readingSpeed == old(readingSpeed)
    {
      ghost var polls := PacingPolls(readingSpeed);
      ghost var goal := Schedule.ProcessManga(State(), world, slug, polls);
      var chapters := FetchChapters(slug);
      trace := [];
      while true
        invariant readingSpeed == old(readingSpeed) && Valid()
        invariant goal == Prefixed(trace, Rounds(State(), world, slug, chapters, polls))
        decreases |world.chapterPages|
      {
        ghost var s0, w0, entered := State(), world, chapters;
        var stop, next;
        ghost var read;
        stop, next, read := Round(slug, chapters);
        ghost var before := trace;
        trace := trace + read;
        if stop {
          assert Rounds(s0, w0, slug, chapters, polls) == Run(State(), world, true, read);
          return false, trace;
        }
        if next.None? {
          assert Rounds(s0, w0, slug, chapters, polls) == Run(State(), world, false, read);
          break;
        }
        chapters := next;
        ghost var more := Rounds(State(), world, slug, chapters, polls);
        assert Rounds(s0, w0, slug, entered, polls) == Prefixed(read, more);
        PrefixedTwice(before, read, more);
      }
      completed := true;
    }

    /** One iteration of the body of `while not self.user_interrupt`
        (allbrowser.py:832-862), with `attempts` its local `page_attempts`. */
    method Iterate(attempts: nat) returns (attempts': nat)
      requires Valid()
      modifies this
      ensures Session.MainStep(old(State()), old(world), attempts, PacingPolls(old(readingSpeed)), State(), world, attempts')
      ensures readingSpeed == old(readingSpeed)
    {
      attempts' := attempts;
      if currentManga.Some? && currentManga.value != "" {
        var _, _ := ProcessManga(currentManga.value);
        currentManga := None;
      } else {
        var titles := FetchCatalog();
        if titles.None? {
          attempts' := attempts' + 1;
          if attempts' >= MaxPageAttempts {
            currentPage := 1;
            attempts' := 0;
          } else if currentPage < MaxCatalogPages {
            currentPage := currentPage + 1;
          } else {
            currentPage := 1;
          }
        } else {
          attempts' := 0;
          assert titles.value[0] in titles.value;
          var title :| title in titles.value;
          currentManga := Some(title);
          currentVolume := 1;
          currentChapter := 1;
        }
      }
    }

    /** One turn of `while not self.user_interrupt`: the listener's latest
        action lands and the test is made; `stop` is the test failing.
        Otherwise the iteration runs and is recorded at the end of the trail
        that led to it. */
    method Advance(attempts: nat, ghost trail: Session.Trail) returns (stop: bool, attempts': nat, ghost trail': Session.Trail)
      requires Valid() && |trail| >= 1 && Session.Chain(trail, PacingPolls(readingSpeed))
      requires trail[|trail| - 1] == (State(), world, attempts)
      modifies this
      ensures Valid() && readingSpeed == old(readingSpeed)
      ensures stop ==> userInterrupt && (State(), world) == Schedule.Poll(old(State()), old(world))
      ensures !stop ==>
        Session.LoopStep(old(State()), old(world), attempts, PacingPolls(readingSpeed), State(), world, attempts')
      ensures old(userInterrupt) ==> stop
      ensures stop ==> trail' == trail && attempts' == attempts
      ensures !stop ==> trail' == trail + [(State(), world, attempts')]
      ensures Session.Chain(trail', PacingPolls(readingSpeed))
    {
      Poll();
      if userInterrupt {
        return true, attempts, trail;
      }
      attempts' := Iterate(attempts);
      Session.ChainExtend(trail, PacingPolls(readingSpeed), (State(), world, attempts'));
      trail' := trail + [(State(), world, attempts')];
      stop := false;
    }

    /** `main_loop`, run for at most `fuel` iterations of its
        `while not self.user_interrupt`. `trail` records the state before
        each test of the loop; the run ends at a failed test or when the fuel
        is used up. */
    method MainLoop(fuel: nat) returns (iterations: nat, ghost trail: Session.Trail)
      requires Valid()
      modifies this
      ensures var polls := PacingPolls(old(readingSpeed));
        && |trail| == iterations + 1 && Session.Chain(trail, polls)
        && trail[0] == (old(State()), old(world), 0)
      ensures iterations <= fuel
      ensures iterations < fuel ==>
        userInterrupt && (State(), world) == Schedule.Poll(trail[iterations].0, trail[iterations].1)
      ensures iterations == fuel ==> State() == trail[iterations].0 && world == trail[iterations].1
      ensures old(userInterrupt) ==> iterations == 0
      ensures old(processedChapters) <= processedChapters
      ensures 1 <= old(currentPage) <= MaxCatalogPages ==> 1 <= currentPage <= MaxCatalogPages
      ensures readingSpeed == old(readingSpeed)
    {
      ghost var polls := PacingPolls(readingSpeed);
      var pageAttempts: nat := 0;
      var stopped := false;
      iterations := 0;
      trail := [(State(), world, 0)];
      while !stopped && iterations < fuel
        invariant readingSpeed == old(readingSpeed) && Valid()
        invariant iterations <= fuel && |trail| == iterations + 1 && Session.Chain(trail, polls)
        invariant trail[0] == (old(State()), old(world), 0)
        invariant !stopped ==> trail[iterations] == (State(), world, pageAttempts)
        invariant stopped ==>
          iterations < fuel && userInterrupt && (State(), world) == Schedule.Poll(trail[iterations].0, trail[iterations].1)
        invariant old(userInterrupt) ==> iterations == 0
        decreases fuel - iterations, if stopped then 0 else 1
      {
        stopped, pageAttempts, trail := Advance(pageAttempts, trail);
        if !stopped {
          iterations := iterations + 1;
        }
      }
      Session.ChainKeeps(trail, polls);
    }
  }
}
