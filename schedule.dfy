/** The bookkeeping of `read_chapter` and `process_manga` as functions of the
    reader's state and of what the outside world does: the browser's answers
    and the key presses of the keyboard listener. `Reader.MangaReader` runs
    the same steps imperatively and is proved to end in the state these
    functions give. */
module Schedule {
  import opened Wrappers
  import opened Text
  import opened Links
  import opened Keys
  import Snapshot

  /** What the keyboard listener (allbrowser.py:802-820) did since the previous
      checkpoint: nothing, 'q' (stop) or 'u' (switch title). */
  datatype Key = NoKey | Quit | Switch

  /** How a visit of a chapter page goes up to the scroll-through:
      - `Failed`: the page did not load, the favourite button was missing or
        could not be clicked, the scrolling raised, or anything else raised;
      - `Unavailable`: the content never appeared and the page says the
        chapter is unavailable or removed;
      - `Opened(scrollSteps)`: the page is open and marked favourite, and the
        scroll-through takes `scrollSteps` steps (`random.randint(10, 20)`). */
  datatype Visit = Failed | Unavailable | Opened(scrollSteps: nat)

  /** The answers the outside world will give, in the order they are asked for.
      An exhausted stream answers with a page that did not load (which
      `get_chapters` turns into `[(1, 1)]` and `get_manga_from_catalog` into
      `None`), a failed visit, or no key press. */
  datatype World = World(chapterPages: seq<Page>, catalogPages: seq<Page>, visits: seq<Visit>, keys: seq<Key>)
  {
    /** The next title page `get_chapters` fetches. */
    function NextChapterPage(): (r: (Page, World))
      ensures r.1 == this.(chapterPages := r.1.chapterPages)
      ensures |r.1.chapterPages| <= |chapterPages|
      ensures !r.0.LoadFailed? ==> |r.1.chapterPages| < |chapterPages|
    {
      if |chapterPages| == 0 then (LoadFailed, this)
      else (chapterPages[0], this.(chapterPages := chapterPages[1..]))
    }

    /** The next catalog page `get_manga_from_catalog` fetches. */
    function NextCatalogPage(): (r: (Page, World))
      ensures r.1 == this.(catalogPages := r.1.catalogPages)
    {
      if |catalogPages| == 0 then (LoadFailed, this)
      else (catalogPages[0], this.(catalogPages := catalogPages[1..]))
    }

    /** How the next chapter page `read_chapter` opens goes. */
    function NextVisit(): (r: (Visit, World))
      ensures r.1 == this.(visits := r.1.visits)
    {
      if |visits| == 0 then (Failed, this)
      else (visits[0], this.(visits := visits[1..]))
    }

    /** What the listener did before the next checkpoint. */
    function NextKey(): (r: (Key, World))
      ensures r.1 == this.(keys := r.1.keys) && |keys| - 1 <= |r.1.keys| <= |keys|
    {
      if |keys| == 0 then (NoKey, this)
      else (keys[0], this.(keys := keys[1..]))
    }
  }

  /** The fields of `MangaReader` the core reads and writes. */
  datatype State = State(
    page: int,
    manga: Option<string>,
    volume: int,
    chapter: int,
    processed: set<string>,
    interrupt: bool,   // user_interrupt
    switching: bool)   // switch_manga_flag

  /** The persisted part of a state. */
  function Persisted(s: State): Snapshot.Resume
  {
    Snapshot.Resume(s.page, s.manga, s.volume, s.chapter, s.processed)
  }

  /** The listener's effect: 'q' sets `user_interrupt`, 'u' sets
      `switch_manga_flag`; once `user_interrupt` is set the listener has
      left its loop and nothing changes any more. */
  function Press(s: State, k: Key): (r: State)
    ensures r.(interrupt := s.interrupt, switching := s.switching) == s
    ensures r.interrupt <==> s.interrupt || k == Quit
    ensures r.switching <==> s.switching || (!s.interrupt && k == Switch)
  {
    if s.interrupt then s
    else
      match k
      case NoKey => s
      case Quit => s.(interrupt := true)
      case Switch => s.(switching := true)
  }

  /** A flag check lets the listener's next action land on the flags: only
      the flags change, and at most one key press is consumed. */
  function Poll(s: State, w: World): (r: (State, World))
    ensures r.0.(interrupt := s.interrupt, switching := s.switching) == s
    ensures (s.interrupt ==> r.0.interrupt) && (s.switching ==> r.0.switching)
    ensures r.1 == w.(keys := r.1.keys) && |w.keys| - 1 <= |r.1.keys| <= |w.keys|
    ensures |w.keys| == 0 ==> r == (s, w)
  {
    var (k, w') := w.NextKey();
    (Press(s, k), w')
  }

  /** The result of a checkpoint or a wait. */
  datatype Step = Step(s: State, w: World, stop: bool)

  /** A checkpoint of `process_manga` (allbrowser.py:723-726, 741-744,
      763-766): after the listener's latest action, either flag stops the
      caller, and stopping clears `switch_manga_flag`. */
  function Checkpoint(s: State, w: World): (r: Step)
    ensures r.stop <==> Poll(s, w).0.interrupt || Poll(s, w).0.switching
    ensures r.stop ==> !r.s.switching && r.s == Poll(s, w).0.(switching := false)
    ensures !r.stop ==> r.s == Poll(s, w).0 && r.s == s
    ensures r.w == Poll(s, w).1
  {
    var (s1, w1) := Poll(s, w);
    if s1.interrupt || s1.switching then Step(s1.(switching := false), w1, true)
    else Step(s1, w1, false)
  }

  /** The result of `read_chapter`: the new state, the rest of the world and,
      after a completed scroll-through, the title page fetched again for the
      next-chapter hint. */
  datatype Read = Read(s: State, w: World, refetched: Option<Page>)

  /** `n` polls, each followed by a look at the flags, stopping at the first
      poll after which one is up; unlike a checkpoint, the flags are left as
      they are. This is the check at the head of each scroll step
      (allbrowser.py:660-662) and the loop of the pacing wait. */
  function Watch(s: State, w: World, n: nat): (r: Step)
    ensures r.stop ==> r.s.interrupt || r.s.switching
    ensures !r.stop ==> r.s == s
    ensures r.s.(interrupt := s.interrupt, switching := s.switching) == s
    ensures (s.interrupt ==> r.s.interrupt) && (s.switching ==> r.s.switching)
    ensures r.w == w.(keys := r.w.keys)
    // a flag already up stops the polls at the first one
    ensures n > 0 && (s.interrupt || s.switching) ==> r == Step(Poll(s, w).0, Poll(s, w).1, true)
    ensures n > 0 && !r.stop ==> !s.interrupt && !s.switching
    decreases n
  {
    if n == 0 then Step(s, w, false)
    else
      var (s1, w1) := Poll(s, w);
      if s1.interrupt || s1.switching then Step(s1, w1, true)
      else Watch(s1, w1, n - 1)
  }

  /** `read_chapter(slug, volume, chapter)` (allbrowser.py:592-700) with the
      page visit replaced by the next `Visit` and the re-fetched chapter list
      by the next title page. */
  function ReadChapter(s: State, w: World, slug: string, volume: int, chapter: int): (r: Read)
    // an already processed chapter is left alone: no page is opened
    ensures ChapterKey(slug, volume, chapter) in s.processed ==> r == Read(s, w, None)
    // only this chapter's key may be added, and nothing is removed
    ensures s.processed <= r.s.processed <= s.processed + {ChapterKey(slug, volume, chapter)}
    // a failed visit never records the chapter
    ensures w.NextVisit().0.Failed? ==> r.s.processed == s.processed && r.refetched.None?
    // an unavailable chapter is recorded
    ensures w.NextVisit().0.Unavailable? ==> ChapterKey(slug, volume, chapter) in r.s.processed && r.refetched.None?
    // a scroll-through cut short by a key does not record the chapter
    ensures r.s.interrupt != s.interrupt || r.s.switching != s.switching ==>
      r.s.processed == s.processed && r.refetched.None?
    // the title page is fetched again only after a recorded read
    ensures r.refetched.Some? ==> ChapterKey(slug, volume, chapter) in r.s.processed - s.processed
    // the key is added only for an unavailable chapter or a completed scroll-through
    ensures ChapterKey(slug, volume, chapter) in r.s.processed - s.processed ==>
      w.NextVisit().0.Unavailable? || r.refetched.Some?
    // a completed scroll-through is one whose polls found no flag up
    ensures r.refetched.Some? ==>
      w.NextVisit().0.Opened? && !Watch(s, w.NextVisit().1, w.NextVisit().0.scrollSteps).stop
    // so a flag already up on entry cuts every scroll-through of at least one step short
    ensures (s.interrupt || s.switching) && (w.NextVisit().0.Opened? ==> w.NextVisit().0.scrollSteps > 0) ==>
      r.refetched.None?
    // the position, the page and the title are untouched; flags are only set
    ensures r.s.(processed := s.processed, interrupt := s.interrupt, switching := s.switching) == s
    ensures (s.interrupt ==> r.s.interrupt) && (s.switching ==> r.s.switching)
    ensures |r.w.chapterPages| <= |w.chapterPages| && r.w.catalogPages == w.catalogPages
  {
    var key := ChapterKey(slug, volume, chapter);
    if key in s.processed then Read(s, w, None)
    else
      var (visit, w1) := w.NextVisit();
      match visit
      case Failed => Read(s, w1, None)
      case Unavailable => Read(s.(processed := s.processed + {key}), w1, None)
      case Opened(steps) =>
        var scroll := Watch(s, w1, steps);
        if scroll.stop then Read(scroll.s, scroll.w, None)
        else
          var (page, w3) := scroll.w.NextChapterPage();
          Read(scroll.s.(processed := scroll.s.processed + {key}), w3, Some(page))
  }

  /** The value `read_chapter` returns (allbrowser.py:682-694): the chapter
      after `(volume, chapter)` in the list the title page now shows, or
      `None` when there was no completed read or the chapter is absent from
      that list or last in it. A hint is always a later chapter. */
  function Hint(r: Read, volume: int, chapter: int): (hint: Option<Pair>)
    ensures hint.Some? ==> r.refetched.Some? && Before((volume, chapter), hint.value)
  {
    match r.refetched
    case None => None
    case Some(page) =>
      match GetChapters(page)
      case None => None
      case Some(chapters) =>
        NextChapterIsSuccessor(chapters, (volume, chapter));
        NextChapter(chapters, (volume, chapter))
  }

  /** A scroll-through that runs to its end records the chapter and returns
      the chapter right after it in the list the title page now shows. */
  lemma ReadChapterHint(s: State, w: World, slug: string, volume: int, chapter: int)
    requires ChapterKey(slug, volume, chapter) !in s.processed
    requires w.NextVisit().0.Opened?
    requires !Watch(s, w.NextVisit().1, w.NextVisit().0.scrollSteps).stop
    ensures var r := ReadChapter(s, w, slug, volume, chapter);
      var page := Watch(s, w.NextVisit().1, w.NextVisit().0.scrollSteps).w.NextChapterPage().0;
      && r.s.processed == s.processed + {ChapterKey(slug, volume, chapter)}
      && Hint(r, volume, chapter) == (match GetChapters(page)
                                      case None => None
                                      case Some(chapters) => NextChapter(chapters, (volume, chapter)))
  {
  }

  /** The pacing wait between two chapters (allbrowser.py:759-767): `polls`
      checkpoints, one a second; stopping clears `switch_manga_flag`. */
  function Wait(s: State, w: World, polls: nat): (r: Step)
    ensures r.stop ==> !r.s.switching
    ensures r.s.(interrupt := s.interrupt, switching := s.switching) == s
    ensures (s.interrupt ==> r.s.interrupt) && (!r.stop ==> r.s == s)
    ensures r.w == w.(keys := r.w.keys)
    // a flag already up ends the wait at its first second
    ensures polls > 0 && (s.interrupt || s.switching) ==>
      r.stop && r.s == Poll(s, w).0.(switching := false) && r.w == Poll(s, w).1
    ensures polls > 0 && !r.stop ==> !s.interrupt && !s.switching
    // it stops only where a one-second check found a flag up
    ensures r.stop <==> Watch(s, w, polls).stop
  {
    var watch := Watch(s, w, polls);
    if watch.stop then watch.(s := watch.s.(switching := false)) else watch
  }

  /** A key pressed during the polls is seen at the very poll that follows
      it: they stop right after the first key press, having consumed nothing
      else, with the flag of that key up. */
  lemma {:induction false} WatchStopsAtFirstKey(s: State, w: World, n: nat, j: nat)
    requires !s.interrupt && !s.switching
    requires j < n && j < |w.keys| && w.keys[j] != NoKey
    requires forall k :: 0 <= k < j ==> w.keys[k] == NoKey
    ensures var r := Watch(s, w, n);
      && r.stop && r.w == w.(keys := w.keys[j + 1..])
      && r.s == (if w.keys[j] == Quit then s.(interrupt := true) else s.(switching := true))
    decreases j
  {
    if j > 0 {
      var w1 := w.(keys := w.keys[1..]);
      assert w.NextKey() == (NoKey, w1);
      assert w1.keys[j - 1] == w.keys[j];
      WatchStopsAtFirstKey(s, w1, n - 1, j - 1);
      assert w1.keys[j..] == w.keys[j + 1..];
    }
  }

  /** The pacing wait ends at the first key press: 'q' leaves the bot
      stopping, 'u' is consumed and cleared. */
  lemma WaitStopsAtFirstKey(s: State, w: World, polls: nat, j: nat)
    requires !s.interrupt && !s.switching
    requires j < polls && j < |w.keys| && w.keys[j] != NoKey
    requires forall k :: 0 <= k < j ==> w.keys[k] == NoKey
    ensures var r := Wait(s, w, polls);
      r.stop && r.w == w.(keys := w.keys[j + 1..]) && r.s == s.(interrupt := w.keys[j] == Quit)
  {
    WatchStopsAtFirstKey(s, w, polls, j);
  }

  /** With no key pressed the polls run out and change nothing else: the
      whole scroll-through is done, and `n` key slots, or all that are left,
      are used up. */
  lemma {:induction false} WatchWithoutKeys(s: State, w: World, n: nat)
    requires !s.interrupt && !s.switching
    requires forall k :: 0 <= k < |w.keys| ==> w.keys[k] == NoKey
    ensures Watch(s, w, n) == Step(s, w.(keys := w.keys[(if n <= |w.keys| then n else |w.keys|)..]), false)
    decreases n
  {
    if n > 0 {
      if |w.keys| == 0 {
        assert Poll(s, w) == (s, w);
        WatchWithoutKeys(s, w, n - 1);
      } else {
        var w1 := w.(keys := w.keys[1..]);
        assert w.keys[0] == NoKey;
        assert Poll(s, w) == (s, w1);
        assert forall k :: 0 <= k < |w1.keys| ==> w1.keys[k] == w.keys[k + 1];
        WatchWithoutKeys(s, w1, n - 1);
        var m := if n - 1 <= |w1.keys| then n - 1 else |w1.keys|;
        assert w1.keys[m..] == w.keys[m + 1..];
      }
    }
  }

  /** With no key pressed the pacing wait lasts its full length. */
  lemma WaitWithoutKeys(s: State, w: World, polls: nat)
    requires !s.interrupt && !s.switching
    requires forall k :: 0 <= k < |w.keys| ==> w.keys[k] == NoKey
    ensures Wait(s, w, polls) == Step(s, w.(keys := w.keys[(if polls <= |w.keys| then polls else |w.keys|)..]), false)
  {
    WatchWithoutKeys(s, w, polls);
  }

  /** The result of a pass, of `process_manga`, or of part of either: the
      state, the rest of the world, whether it returned `False` early, and
      the chapters handed to `read_chapter`, in order. */
  datatype Run = Run(s: State, w: World, aborted: bool, trace: seq<Pair>)

  /** `r` preceded by the chapters `read` that were handed to `read_chapter` before it. */
  function Prefixed(read: seq<Pair>, r: Run): Run
  {
    r.(trace := read + r.trace)
  }

  /** Two prefixes in a row are one. */
  lemma PrefixedTwice(a: seq<Pair>, b: seq<Pair>, r: Run)
    ensures Prefixed(a, Prefixed(b, r)) == Prefixed(a + b, r)
  {
    assert a + (b + r.trace) == (a + b) + r.trace;
  }

  /** The chapters of `chapters` whose key is not in `done`, in list order. */
  function Unread(chapters: seq<Pair>, slug: string, done: set<string>): seq<Pair>
    decreases |chapters|
  {
    if |chapters| == 0 then []
    else (if KeyOf(slug, chapters[0]) in done then [] else [chapters[0]]) + Unread(chapters[1..], slug, done)
  }

  /** The keys of the chapters of a list. */
  function KeysOf(slug: string, chapters: seq<Pair>): set<string>
    decreases |chapters|
  {
    if |chapters| == 0 then {} else {KeyOf(slug, chapters[0])} + KeysOf(slug, chapters[1..])
  }

  /** The result of one turn of a loop of `process_manga`: the state, the
      rest of the world, whether it returned `False`, and the chapter it
      handed to `read_chapter`, if any. */
  datatype Turn = Turn(s: State, w: World, stop: bool, read: Option<Pair>)

  /** The chapter of a turn as a trace of at most one element. */
  function Listed(read: Option<Pair>): (r: seq<Pair>)
    ensures |r| <= 1 && (|r| == 1 <==> read.Some?) && (read.Some? ==> r[0] == read.value)
  {
    if read.Some? then [read.value] else []
  }

  /** One turn of the `for` loop of `process_manga` (allbrowser.py:741-767)
      at index `i`: the checkpoint; a processed chapter is skipped; otherwise
      the position is set to the chapter, the chapter is read and, unless it
      is the last of the list, the pacing wait follows. */
  function PassTurn(s: State, w: World, slug: string, chapters: seq<Pair>, i: nat, polls: nat): (t: Turn)
    requires i < |chapters|
    ensures s.processed <= t.s.processed <= s.processed + {KeyOf(slug, chapters[i])}
    ensures t.s.page == s.page && t.s.manga == s.manga
    ensures (s.interrupt ==> t.s.interrupt) && (t.stop ==> !t.s.switching)
    ensures |t.w.chapterPages| <= |w.chapterPages| && t.w.catalogPages == w.catalogPages
    // a flag found at the checkpoint ends the turn with a stop and no read
    ensures Checkpoint(s, w).stop ==> t.stop && t.read.None?
    // the chapter is handed over exactly when it is not processed and no flag stopped the turn first
    ensures !Checkpoint(s, w).stop ==>
      (t.read.Some? <==> KeyOf(slug, chapters[i]) !in s.processed) && (t.read.None? ==> !t.stop)
    // a stop comes from the checkpoint or from the pacing wait, which the last chapter has none of
    ensures t.stop ==> Checkpoint(s, w).stop || (t.read.Some? && i < |chapters| - 1)
    ensures t.read.Some? ==>
      t.read.value == chapters[i] && KeyOf(slug, chapters[i]) !in s.processed && (t.s.volume, t.s.chapter) == chapters[i]
    ensures t.read.None? ==>
      && t.w.visits == w.visits && t.s.processed == s.processed && (t.s.volume, t.s.chapter) == (s.volume, s.chapter)
      && (!t.stop ==> KeyOf(slug, chapters[i]) in s.processed)
    // a turn without a read is its checkpoint alone: no page, no visit, no pacing wait
    ensures t.read.None? ==> t.s == Checkpoint(s, w).s && t.w == Checkpoint(s, w).w
  {
    var cp := Checkpoint(s, w);
    if cp.stop then Turn(cp.s, cp.w, true, None)
    else
      var p := chapters[i];
      if KeyOf(slug, p) in cp.s.processed then Turn(cp.s, cp.w, false, None)
      else
        var rd := ReadChapter(cp.s.(volume := p.0, chapter := p.1), cp.w, slug, p.0, p.1);
        if i < |chapters| - 1 then
          var wt := Wait(rd.s, rd.w, polls);
          Turn(wt.s, wt.w, wt.stop, Some(p))
        else Turn(rd.s, rd.w, false, Some(p))
  }

  /** A turn that stops after its checkpoint passed stops in the pacing wait,
      at a one-second check that found a flag up: `False` never comes
      without a flag. */
  lemma PassTurnStopsOnFlag(s: State, w: World, slug: string, chapters: seq<Pair>, i: nat, polls: nat)
    requires i < |chapters|
    ensures var t, cp := PassTurn(s, w, slug, chapters, i, polls), Checkpoint(s, w);
      t.stop && !cp.stop ==>
        var p := chapters[i];
        var rd := ReadChapter(cp.s.(volume := p.0, chapter := p.1), cp.w, slug, p.0, p.1);
        var watch := Watch(rd.s, rd.w, polls);
        && t.read == Some(p) && i < |chapters| - 1
        && watch.stop && (watch.s.interrupt || watch.s.switching)
  {
  }

  /** A scroll-through cut short by a key press, of a chapter that is not the
      last of the list, is followed by the pacing wait, which finds the flag
      at its first second: the turn returns `False` without recording the
      chapter, and the switch flag is cleared. */
  lemma CutScrollStopsPassTurn(s: State, w: World, slug: string, chapters: seq<Pair>, i: nat, polls: nat)
    requires i < |chapters| - 1 && polls > 0
    requires !Checkpoint(s, w).stop && KeyOf(slug, chapters[i]) !in s.processed
    requires var p := chapters[i];
      var rd := ReadChapter(s.(volume := p.0, chapter := p.1), Checkpoint(s, w).w, slug, p.0, p.1);
      rd.s.interrupt || rd.s.switching
    ensures var t := PassTurn(s, w, slug, chapters, i, polls);
      t.stop && t.read == Some(chapters[i]) && !t.s.switching && t.s.processed == s.processed
  {
  }

  /** The `for` loop of `process_manga` (allbrowser.py:740-767) from index `i`. */
  function Pass(s: State, w: World, slug: string, chapters: seq<Pair>, i: nat, polls: nat): (r: Run)
    requires i <= |chapters|
    ensures s.processed <= r.s.processed
    ensures r.s.page == s.page && r.s.manga == s.manga
    ensures (s.interrupt ==> r.s.interrupt) && (r.aborted ==> !r.s.switching)
    ensures |r.w.chapterPages| <= |w.chapterPages| && r.w.catalogPages == w.catalogPages
    // only a read opens a chapter page or records a chapter
    ensures |r.trace| == 0 ==> r.w.visits == w.visits && r.s.processed == s.processed
    // the position is that of the last chapter handed to `read_chapter`, or where it was
    ensures |r.trace| > 0 ==> (r.s.volume, r.s.chapter) == r.trace[|r.trace| - 1]
    ensures |r.trace| == 0 ==> (r.s.volume, r.s.chapter) == (s.volume, s.chapter)
    decreases |chapters| - i
  {
    if i == |chapters| then Run(s, w, false, [])
    else
      var t := PassTurn(s, w, slug, chapters, i, polls);
      if t.stop then Run(t.s, t.w, true, Listed(t.read))
      else Prefixed(Listed(t.read), Pass(t.s, t.w, slug, chapters, i + 1, polls))
  }

  /** One turn of a pass, then the rest of it. */
  lemma PassUnfolds(s: State, w: World, slug: string, chapters: seq<Pair>, i: nat, polls: nat)
    requires i < |chapters|
    ensures var t := PassTurn(s, w, slug, chapters, i, polls);
      Pass(s, w, slug, chapters, i, polls)
        == if t.stop then Run(t.s, t.w, true, Listed(t.read))
           else Prefixed(Listed(t.read), Pass(t.s, t.w, slug, chapters, i + 1, polls))
  {
  }

  /** A pass that has handed over `read` so far and is at index `i`, after
      turn `t`: either it ended there, or it goes on from index `i + 1`. */
  lemma PassAfterTurn(pass: Run, read: seq<Pair>, s: State, w: World, slug: string, chapters: seq<Pair>, i: nat, polls: nat, t: Turn)
    requires i < |chapters| && t == PassTurn(s, w, slug, chapters, i, polls)
    requires pass == Prefixed(read, Pass(s, w, slug, chapters, i, polls))
    ensures t.stop ==> pass == Run(t.s, t.w, true, read + Listed(t.read))
    ensures !t.stop ==> pass == Prefixed(read + Listed(t.read), Pass(t.s, t.w, slug, chapters, i + 1, polls))
  {
    PassUnfolds(s, w, slug, chapters, i, polls);
    if !t.stop {
      PrefixedTwice(read, Listed(t.read), Pass(t.s, t.w, slug, chapters, i + 1, polls));
    }
  }

  /** A pass records only chapters of its own list, from index `i` on. */
  lemma {:induction false} PassRecordsOnlyListed(s: State, w: World, slug: string, chapters: seq<Pair>, i: nat, polls: nat)
    requires i <= |chapters|
    ensures Pass(s, w, slug, chapters, i, polls).s.processed <= s.processed + KeysOf(slug, chapters[i..])
    decreases |chapters| - i
  {
    if i < |chapters| {
      assert chapters[i..] == [chapters[i]] + chapters[i + 1..];
      assert KeysOf(slug, chapters[i..]) == {KeyOf(slug, chapters[i])} + KeysOf(slug, chapters[i + 1..]);
      var t := PassTurn(s, w, slug, chapters, i, polls);
      if !t.stop {
        PassRecordsOnlyListed(t.s, t.w, slug, chapters, i + 1, polls);
      }
    }
  }

  /** `if current_pos not in chapters`: the position moves to the first listed
      chapter unless it is already listed. */
  function Reposition(s: State, chapters: seq<Pair>): (r: State)
    requires |chapters| >= 1
    ensures (r.volume, r.chapter) in chapters
    ensures (s.volume, s.chapter) in chapters ==> r == s
    ensures (s.volume, s.chapter) !in chapters ==> r == s.(volume := chapters[0].0, chapter := chapters[0].1)
  {
    if (s.volume, s.chapter) in chapters then s
    else s.(volume := chapters[0].0, chapter := chapters[0].1)
  }

  /** `if not chapters: chapters = self.get_chapters(manga_slug)`: a missing
      or empty list is fetched again; a usable one is kept. */
  function Refetch(chapters: Option<seq<Pair>>, w: World): (r: (Option<seq<Pair>>, World))
    ensures r.1 == w.(chapterPages := r.1.chapterPages) && |r.1.chapterPages| <= |w.chapterPages|
    ensures chapters.Some? && |chapters.value| > 0 ==> r == (chapters, w)
    ensures r.0.Some? && r.0 != chapters ==> StrictlySorted(r.0.value)
    ensures chapters.None? || |chapters.value| == 0 ==>
      r == (GetChapters(w.NextChapterPage().0), w.NextChapterPage().1)
    // so the list after it is never missing or empty, and 731-733 never returns
    ensures r.0.Some? && |r.0.value| >= 1
  {
    if chapters.None? || |chapters.value| == 0 then
      var (page, w') := w.NextChapterPage(); (GetChapters(page), w')
    else (chapters, w)
  }

  /** The result of one turn of the `while True` loop: as `Turn`, with the
      longer list the loop goes on with, if it does. */
  datatype Lap = Lap(s: State, w: World, stop: bool, next: Option<seq<Pair>>, read: seq<Pair>)

  /** One turn of the `while True` loop of `process_manga`
      (allbrowser.py:722-783) entered with the list `chapters`: the
      checkpoint; the list fetched again if it is missing or empty, and a
      `return False` if it still is; the position repositioned; the pass;
      and the list fetched once more, the loop going on only if it grew. */
  function RoundTurn(s: State, w: World, slug: string, chapters: Option<seq<Pair>>, polls: nat): (l: Lap)
    ensures s.processed <= l.s.processed
    ensures l.s.page == s.page && l.s.manga == s.manga
    ensures (s.interrupt ==> l.s.interrupt) && (l.stop ==> !l.s.switching)
    ensures |l.w.chapterPages| <= |w.chapterPages| && l.w.catalogPages == w.catalogPages
    ensures |l.read| == 0 ==> l.w.visits == w.visits && l.s.processed == s.processed
    // a flag found at the loop's checkpoint ends the turn with a stop and no read
    ensures Checkpoint(s, w).stop ==> l.stop && |l.read| == 0 && l.s == Checkpoint(s, w).s
    // so does a list that is still missing or empty after the fetch
    ensures var cp := Checkpoint(s, w);
      var fetched := Refetch(chapters, cp.w).0;
      !cp.stop && (fetched.None? || |fetched.value| == 0) ==> l.stop && |l.read| == 0 && l.s == cp.s
    ensures l.next.Some? ==>
      && !l.stop && |l.w.chapterPages| < |w.chapterPages| && StrictlySorted(l.next.value)
      && (chapters.Some? ==> |l.next.value| > |chapters.value|)
  {
    var cp := Checkpoint(s, w);
    if cp.stop then Lap(cp.s, cp.w, true, None, [])
    else
      var (fetched, w1) := Refetch(chapters, cp.w);
      if fetched.None? || |fetched.value| == 0 then Lap(cp.s, w1, true, None, [])
      else
        var list := fetched.value;
        var pass := Pass(Reposition(cp.s, list), w1, slug, list, 0, polls);
        if pass.aborted then Lap(pass.s, pass.w, true, None, pass.trace)
        else
          var (page, w2) := pass.w.NextChapterPage();
          var updated := GetChapters(page);
          Lap(pass.s, w2, false, if updated.Some? && |updated.value| > |list| then updated else None, pass.trace)
  }

  /** The converse of the growth condition of `RoundTurn`: once a pass over a
      usable list ends without a stop, the loop goes on exactly when the list
      fetched afterwards is longer, and then with that list. */
  lemma RoundTurnGoesOnWhenLonger(s: State, w: World, slug: string, chapters: Option<seq<Pair>>, polls: nat)
    ensures var l := RoundTurn(s, w, slug, chapters, polls);
      var cp := Checkpoint(s, w);
      var (fetched, w1) := Refetch(chapters, cp.w);
      !cp.stop && fetched.Some? && |fetched.value| > 0 ==>
        var list := fetched.value;
        var pass := Pass(Reposition(cp.s, list), w1, slug, list, 0, polls);
        var updated := GetChapters(pass.w.NextChapterPage().0);
        && (l.stop <==> pass.aborted)
        && (!pass.aborted ==>
              (l.next.Some? <==> updated.Some? && |updated.value| > |list|)
              && (l.next.Some? ==> l.next == updated))
  {
  }

  /** `get_chapters` always gives a non-empty list, so every turn of
      `process_manga` is entered with one: the re-fetch of allbrowser.py:729-733
      keeps it, the `return False` after it is never reached, and a turn
      stops only at its checkpoint or in its pass. */
  lemma UsableListStopsOnlyOnFlag(s: State, w: World, slug: string, chapters: Option<seq<Pair>>, polls: nat)
    requires chapters.Some? && |chapters.value| > 0
    ensures var l, cp := RoundTurn(s, w, slug, chapters, polls), Checkpoint(s, w);
      && Refetch(chapters, cp.w) == (chapters, cp.w)
      && (l.stop <==> cp.stop || Pass(Reposition(cp.s, chapters.value), cp.w, slug, chapters.value, 0, polls).aborted)
      && (l.next.Some? ==> |l.next.value| > |chapters.value|)
  {
  }

  /** The `while True` loop of `process_manga` (allbrowser.py:722-785)
      entered with the list `chapters`. */
  function Rounds(s: State, w: World, slug: string, chapters: Option<seq<Pair>>, polls: nat): (r: Run)
    ensures s.processed <= r.s.processed
    ensures r.s.page == s.page && r.s.manga == s.manga
    ensures (s.interrupt ==> r.s.interrupt) && (r.aborted ==> !r.s.switching)
    ensures |r.w.chapterPages| <= |w.chapterPages| && r.w.catalogPages == w.catalogPages
    ensures |r.trace| == 0 ==> r.w.visits == w.visits && r.s.processed == s.processed
    decreases |w.chapterPages|
  {
    var l := RoundTurn(s, w, slug, chapters, polls);
    if l.stop then Run(l.s, l.w, true, l.read)
    else if l.next.Some? then Prefixed(l.read, Rounds(l.s, l.w, slug, l.next, polls))
    else Run(l.s, l.w, false, l.read)
  }

  /** `process_manga(slug)`: the first `get_chapters`, then the rounds.
      `aborted` is the `False` result, and `polls` the length of a pacing wait. */
  function ProcessManga(s: State, w: World, slug: string, polls: nat): (r: Run)
    ensures s.processed <= r.s.processed
    ensures r.s.page == s.page && r.s.manga == s.manga
    ensures (s.interrupt ==> r.s.interrupt) && (r.aborted ==> !r.s.switching)
    ensures r.w.catalogPages == w.catalogPages
    ensures forall p :: p in r.trace ==> KeyOf(slug, p) !in s.processed
  {
    var (page, w1) := w.NextChapterPage();
    RoundsNeverReread(s, w1, slug, GetChapters(page), polls);
    Rounds(s, w1, slug, GetChapters(page), polls)
  }

  // ------------------------------------------------------------------ lemmas

  /** Recording other chapters does not change which chapters of a list are unread. */
  lemma {:induction false} UnreadIgnoresOtherKeys(chapters: seq<Pair>, slug: string, done: set<string>, done': set<string>)
    requires forall q :: q in chapters ==> (KeyOf(slug, q) in done <==> KeyOf(slug, q) in done')
    ensures Unread(chapters, slug, done) == Unread(chapters, slug, done')
    decreases |chapters|
  {
    if |chapters| > 0 {
      assert chapters[0] in chapters;
      assert forall q :: q in chapters[1..] ==> q in chapters;
      UnreadIgnoresOtherKeys(chapters[1..], slug, done, done');
    }
  }

  /** Every element of `Unread` is listed and was not processed. */
  lemma {:induction false} UnreadMembers(chapters: seq<Pair>, slug: string, done: set<string>, p: Pair)
    ensures p in Unread(chapters, slug, done) <==> p in chapters && KeyOf(slug, p) !in done
    decreases |chapters|
  {
    if |chapters| > 0 {
      UnreadMembers(chapters[1..], slug, done, p);
      assert chapters == [chapters[0]] + chapters[1..];
    }
  }

  /** In a strictly sorted list, recording the key of the chapter at index `i`
      leaves the processed status of the later chapters as it was. */
  lemma LaterKeysUnaffected(chapters: seq<Pair>, slug: string, i: nat, done: set<string>, done': set<string>)
    requires i < |chapters| && StrictlySorted(chapters)
    requires done <= done' <= done + {KeyOf(slug, chapters[i])}
    ensures Unread(chapters[i + 1..], slug, done) == Unread(chapters[i + 1..], slug, done')
  {
    var p := chapters[i];
    forall q | q in chapters[i + 1..]
      ensures KeyOf(slug, q) in done <==> KeyOf(slug, q) in done'
    {
      var j :| 0 <= j < |chapters[i + 1..]| && chapters[i + 1..][j] == q;
      assert q == chapters[i + 1 + j];
      assert Before(p, q);
      if KeyOf(slug, q) == KeyOf(slug, p) {
        ChapterKeyInjective(slug, q.0, q.1, slug, p.0, p.1);
      }
    }
    UnreadIgnoresOtherKeys(chapters[i + 1..], slug, done, done');
  }

  /** A pass hands to `read_chapter` exactly the chapters of the list, from
      index `i` on, that were not processed when it started, in list order;
      one that returns early has handed over a prefix of them. */
  lemma {:induction false} PassReadsUnread(s: State, w: World, slug: string, chapters: seq<Pair>, i: nat, polls: nat)
    requires i <= |chapters| && StrictlySorted(chapters)
    ensures var r, unread := Pass(s, w, slug, chapters, i, polls), Unread(chapters[i..], slug, s.processed);
      && r.trace <= unread
      && (!r.aborted ==> |r.trace| == |unread|)
    decreases |chapters| - i
  {
    if i < |chapters| {
      var p := chapters[i];
      var head := if KeyOf(slug, p) in s.processed then [] else [p];
      var rest := Unread(chapters[i + 1..], slug, s.processed);
      assert chapters[i..][0] == p && chapters[i..][1..] == chapters[i + 1..];
      assert Unread(chapters[i..], slug, s.processed) == head + rest;
      var t := PassTurn(s, w, slug, chapters, i, polls);
      LaterKeysUnaffected(chapters, slug, i, s.processed, t.s.processed);
      if !t.stop {
        assert Listed(t.read) == head;
        PassReadsUnread(t.s, t.w, slug, chapters, i + 1, polls);
      }
    }
  }

  /** No chapter a pass over a sorted list hands to `read_chapter` was processed when it started. */
  lemma PassNeverRereads(s: State, w: World, slug: string, chapters: seq<Pair>, polls: nat)
    requires StrictlySorted(chapters)
    ensures forall p :: p in Pass(s, w, slug, chapters, 0, polls).trace ==> KeyOf(slug, p) !in s.processed
  {
    var trace := Pass(s, w, slug, chapters, 0, polls).trace;
    var unread := Unread(chapters, slug, s.processed);
    PassReadsUnread(s, w, slug, chapters, 0, polls);
    assert chapters[0..] == chapters;
    forall p | p in trace ensures KeyOf(slug, p) !in s.processed {
      var k :| 0 <= k < |trace| && trace[k] == p;
      assert unread[k] == p;
      UnreadMembers(chapters, slug, s.processed, p);
    }
  }

  /** `process_manga` never hands an already processed chapter to
      `read_chapter`: every chapter it reads had no key at the start, however
      many rounds the list growth causes. */
  lemma {:induction false} RoundsNeverReread(s: State, w: World, slug: string, chapters: Option<seq<Pair>>, polls: nat)
    requires chapters.Some? ==> StrictlySorted(chapters.value)
    ensures var r := Rounds(s, w, slug, chapters, polls);
      forall p :: p in r.trace ==> KeyOf(slug, p) !in s.processed
    decreases |w.chapterPages|
  {
    var l := RoundTurn(s, w, slug, chapters, polls);
    var cp := Checkpoint(s, w);
    if !cp.stop {
      var (fetched, w1) := Refetch(chapters, cp.w);
      if fetched.Some? && |fetched.value| > 0 {
        var list := fetched.value;
        var st := Reposition(cp.s, list);
        PassNeverRereads(st, w1, slug, list, polls);
        assert l.read == Pass(st, w1, slug, list, 0, polls).trace;
        if l.next.Some? {
          RoundsNeverReread(l.s, l.w, slug, l.next, polls);
        }
      }
    }
  }

  /** The same for the whole of `process_manga`. */
  lemma ProcessMangaNeverRereads(s: State, w: World, slug: string, polls: nat)
    ensures var r := ProcessManga(s, w, slug, polls);
      && s.processed <= r.s.processed
      && forall p :: p in r.trace ==> KeyOf(slug, p) !in s.processed
  {
    var (page, w1) := w.NextChapterPage();
    RoundsNeverReread(s, w1, slug, GetChapters(page), polls);
  }

  /** A flag that is already up when `process_manga` starts makes it return
      `False` at its first checkpoint: only the chapter list is fetched, no
      chapter is read, `switch_manga_flag` is cleared, `user_interrupt` stays. */
  lemma ProcessMangaFlagAtEntry(s: State, w: World, slug: string, polls: nat)
    requires s.interrupt || s.switching
    ensures var r := ProcessManga(s, w, slug, polls);
      && r.aborted && r.trace == [] && !r.s.switching
      && (s.interrupt ==> r.s.interrupt)
      && r.s.processed == s.processed && (r.s.volume, r.s.chapter) == (s.volume, s.chapter)
      && r.w.visits == w.visits
      && |r.w.chapterPages| == (if |w.chapterPages| == 0 then 0 else |w.chapterPages| - 1)
  {
  }

  /** A turn over a chapter whose key is present is its checkpoint alone:
      no read, and at most one key press consumed. */
  lemma SkipTurn(s: State, w: World, slug: string, chapters: seq<Pair>, i: nat, polls: nat)
    requires i < |chapters| && KeyOf(slug, chapters[i]) in s.processed
    ensures var t := PassTurn(s, w, slug, chapters, i, polls);
      && t.read.None? && t.s.processed == s.processed
      && t.w == w.(keys := t.w.keys) && |w.keys| - 1 <= |t.w.keys| <= |w.keys|
  {
  }

  /** From index `i`, a pass over chapters whose keys are all present reads
      nothing: each turn is its checkpoint alone, so the pass only consumes
      key presses, at most one per chapter. */
  lemma {:induction false} PassSkipsFrom(s: State, w: World, slug: string, chapters: seq<Pair>, i: nat, polls: nat)
    requires i <= |chapters|
    requires forall k :: i <= k < |chapters| ==> KeyOf(slug, chapters[k]) in s.processed
    ensures var r := Pass(s, w, slug, chapters, i, polls);
      && r.trace == [] && r.s.processed == s.processed
      && r.w == w.(keys := r.w.keys) && |w.keys| - (|chapters| - i) <= |r.w.keys|
    decreases |chapters| - i
  {
    if i < |chapters| {
      var t := PassTurn(s, w, slug, chapters, i, polls);
      SkipTurn(s, w, slug, chapters, i, polls);
      PassUnfolds(s, w, slug, chapters, i, polls);
      if !t.stop {
        PassSkipsFrom(t.s, t.w, slug, chapters, i + 1, polls);
      }
    }
  }

  /** When every listed chapter is already processed, a pass reads nothing,
      opens no chapter page and makes no pacing wait: only its checkpoints
      consume key presses, one per chapter at most. */
  lemma PassSkipsProcessed(s: State, w: World, slug: string, chapters: seq<Pair>, polls: nat)
    requires forall p :: p in chapters ==> KeyOf(slug, p) in s.processed
    ensures var r := Pass(s, w, slug, chapters, 0, polls);
      && r.trace == [] && r.w.visits == w.visits && r.s.processed == s.processed
      && r.w == w.(keys := r.w.keys) && |w.keys| - |chapters| <= |r.w.keys|
  {
    PassSkipsFrom(s, w, slug, chapters, 0, polls);
  }

  /** A switch request made during the scroll-through of the last chapter of
      the list is not consumed: that chapter is not recorded, `process_manga`
      returns `True` with `switch_manga_flag` still set, and the next title
      `process_manga` is given is dropped at its first checkpoint without a
      chapter being read. */
  lemma SwitchDuringLastScrollOutlivesProcessManga(s: State, slug: string, polls: nat, w': World, slug': string)
    requires !s.interrupt && !s.switching && KeyOf(slug, (1, 1)) !in s.processed
    ensures var w := World([NoElements, NoElements], [], [Opened(10)], [NoKey, NoKey, Switch]);
      var r := ProcessManga(s, w, slug, polls);
      && !r.aborted && r.s.switching && r.trace == [(1, 1)] && r.s.processed == s.processed
      && var next := ProcessManga(r.s, w', slug', polls);
         next.aborted && next.trace == [] && !next.s.switching
  {
    var w := World([NoElements, NoElements], [], [Opened(10)], [NoKey, NoKey, Switch]);
    var w1 := World([NoElements], [], [Opened(10)], [NoKey, NoKey, Switch]);
    var w2 := World([NoElements], [], [Opened(10)], [NoKey, Switch]);
    var w3 := World([NoElements], [], [Opened(10)], [Switch]);
    var w4 := World([NoElements], [], [], []);
    var list := [(1, 1)];
    var s1 := Reposition(s, list);
    var s2 := s1.(volume := 1, chapter := 1);
    assert w.NextChapterPage() == (NoElements, w1);
    assert Checkpoint(s, w1) == Step(s, w2, false);
    assert Refetch(Some(list), w2) == (Some(list), w2);
    assert Checkpoint(s1, w2) == Step(s1, w3, false);
    assert Watch(s2, w3.(visits := []), 10) == Step(s2.(switching := true), w4, true);
    var rd := ReadChapter(s2, w3, slug, 1, 1);
    assert rd == Read(s2.(switching := true), w4, None);
    assert PassTurn(s1, w2, slug, list, 0, polls) == Turn(rd.s, w4, false, Some((1, 1)));
    assert Pass(rd.s, w4, slug, list, 1, polls) == Run(rd.s, w4, false, []);
    var pass := Pass(s1, w2, slug, list, 0, polls);
    assert pass == Run(rd.s, w4, false, [(1, 1)]);
    var last := World([], [], [], []);
    assert w4.NextChapterPage() == (NoElements, last);
    assert RoundTurn(s, w1, slug, Some(list), polls) == Lap(rd.s, last, false, None, [(1, 1)]);
    var r := ProcessManga(s, w, slug, polls);
    assert r == Run(rd.s, last, false, [(1, 1)]);
    ProcessMangaFlagAtEntry(r.s, w', slug', polls);
  }
}
