# MangaReader bookkeeping core, in Dafny

`allbrowser.py` is a Selenium bot for a manga site. It pages through the
catalog and picks a random title. It then "reads" each chapter of the title
by opening its page and scrolling through it. It paces the reads to a
chosen number of chapters per hour and keeps its resume state in a JSON file.
A keyboard listener thread sets two flags: `user_interrupt` ('q') and
`switch_manga_flag` ('u').

This project models the bookkeeping of the `MangaReader` class once every
browser call has been replaced by an answer supplied from outside:

- **Links**: the two href parsers. `get_chapters` gives the sorted,
  de-duplicated `(volume, chapter)` list of a title page, or `[(1, 1)]`.
  `get_manga_from_catalog` gives the slugs of a catalog page. The module also
  has the URLs the bot opens.
- **Keys**: the processed-chapter key `"{slug}_{volume}_{chapter}"`, and the
  index lookup behind the next-chapter hint of `read_chapter`.
- **Paging**: the empty-catalog-page counter with its page wrap-around, and
  the number of one-second polls in the pacing wait.
- **Snapshot**: the dictionary `save_state` writes and the per-key defaults
  `load_state` reads it back with.
- **Schedule**: `read_chapter`, the flag checkpoints and `process_manga`, as
  functions on the resume state and a scripted `World`.
  - The `World` holds the title pages, catalog pages and chapter visits the
    browser will deliver, and the key presses the listener will make.
  - An exhausted stream answers with a page that did not load, a failed
    visit, or no key.
  - Each flag check first lets the listener's next action land on the flags.
    That includes the test of `while not self.user_interrupt`. At most one
    key press lands per check.
- **Session**: one iteration of `main_loop` as a relation, since
  `random.choice` may pick any listed title. A turn of the loop is the poll
  of its test followed by an iteration, and a run is a chain of turns. The module also has two worked scenarios: a title page with
  two chapters, and a catalog page with two titles.
- **Reader**: the class `MangaReader`. Its fields are the ones the core
  updates in place. Its methods carry the loops of `read_chapter`, the pacing
  wait, `process_manga` and `main_loop`. Each method is proved to end in
  exactly the state the `Schedule` or `Session` functions give.

Some behaviours of the source that are easy to miss, all modelled as written:

- A failed `load_state` keeps the fields in memory. It does not reset them
  to the defaults; they only match the defaults when the bot has just
  started.
- If `set(...)` raises in `load_state`, the scalar fields stay assigned.
- `main_loop` checks only `user_interrupt` between iterations. The switch
  flag is cleared only at the checkpoints of `process_manga`.
- A 'u' pressed while the last chapter of a list is being scrolled makes
  `read_chapter` return early. `process_manga` then re-fetches the list. If
  the list has not grown, it returns `True` with the flag still set. (A
  longer list would bring the loop back to its checkpoint, which returns
  `False`.) The flag then stops the next title
  at its first checkpoint, before any of its chapters is read
  (`Schedule.SwitchDuringLastScrollOutlivesProcessManga`).
- `get_chapters` never returns `None`. `safe_get` returns `True` or raises
  on its last attempt, so its `return False` and the `return None` of
  `get_chapters` behind it are dead. A title page that does not load falls
  into the outer handler and gives `[(1, 1)]`, and chapter (1, 1) is then
  read. For the same reason the `return False` of `process_manga` after its
  re-fetch (allbrowser.py:729-733) is never reached; the model keeps that
  branch as written (`Schedule.UsableListStopsOnlyOnFlag`,
  `Session.UnloadedTitlePageReadsFirstChapter`).
- The hint `read_chapter` returns is the successor in the re-fetched list,
  not in the list `process_manga` is walking, and `process_manga` ignores it.

## Model

| member | source | states |
|---|---|---|
| Links.SortUnique | allbrowser.py:578 | `sorted(list(set(chapters)))` is strictly increasing and has exactly the elements of its input |
| Links.SortedByElements | allbrowser.py:578 | two strictly increasing lists with the same elements are equal, so the sorted list is fixed by the set of parsed pairs |
| Links.GetChapters | allbrowser.py:548-590 | never `None` (`safe_get` returns `True` or raises, allbrowser.py:332-360): always a non-empty, strictly increasing list; it holds exactly the pairs parsed from the links, or is `[(1, 1)]` when the page did not load, no element appeared or no link gives a pair |
| Links.ChapterLink | allbrowser.py:566-576 | one link gives a pair only when it contains '/manga/' and has at least five '/'-pieces; the pair is the integers of its last two pieces |
| Links.ChapterPairs | allbrowser.py:566-576 | the links' pairs in link order, at most one per link |
| Links.ChapterPairsMembers | allbrowser.py:566-576 | a pair is collected exactly when some href contains '/manga/', splits into at least five '/'-pieces and its last two pieces are integers |
| Links.ChapterPairsAppend | allbrowser.py:566-576 | the links are parsed one at a time in order: the pairs of two link lists in a row are the pairs of each, concatenated |
| Links.ChapterLinkOfUrl | allbrowser.py:570-574 | the chapter URL `read_chapter` opens (allbrowser.py:601) parses back to its own `(volume, chapter)` when the slug has no '/' |
| Links.GetMangaFromCatalog | allbrowser.py:514-545 | `None` exactly when the page did not load, no card appeared, or no card gave a slug; otherwise the non-empty list of slugs in card order, duplicates kept |
| Links.CatalogSlug | allbrowser.py:530-537 | a card's slug is a non-empty, '/'-free ending of an href that contains '/manga/', and is never 'manga' |
| Links.CatalogSlugs | allbrowser.py:530-537 | the cards' slugs in card order, at most one per card, each non-empty, '/'-free and not 'manga' |
| Links.CatalogSlugsMembers | allbrowser.py:530-537 | a slug is collected exactly when some href yields it; every slug is non-empty, not 'manga', free of '/', and is the last '/'-piece of an href containing '/manga/' |
| Links.CatalogSlugsAppend | allbrowser.py:530-537 | cards are parsed one at a time in order: the slugs of two card lists in a row are the slugs of each, concatenated |
| Links.CatalogSlugOfUrl | allbrowser.py:533-536 | a title URL yields its own slug back, for a slug that is non-empty, not 'manga' and free of '/' |
| Text.JoinOfSplit | allbrowser.py:535 | gluing the pieces of `str.split` back together with the separator gives the original string |
| Text.LastPieceIsSuffix | allbrowser.py:535 | `href.split('/')[-1]` is the '/'-free suffix of the href that follows its last '/' |
| Text.ParseInt | allbrowser.py:572-573 | `int(...)` accepts exactly the strings of decimal digits, optionally after one '+' or '-', and the value has the written sign |
| Text.ParseIntOfIntToString | allbrowser.py:572-573 | `int` reads back every number written by `str` |
| Keys.ChapterKey | allbrowser.py:594 | the key `slug_volume_chapter` splits at '_' back into the slug and the two numbers when the slug holds no '_' |
| Keys.ChapterKeyInjective | allbrowser.py:594 | two chapter keys are equal only for the same slug, volume and chapter, so the processed set never confuses two chapters |
| Keys.IndexOf | allbrowser.py:688 | `chapters.index(x)` is the first position holding `x`, and it is missing (`ValueError`) exactly when `x` is absent |
| Keys.NextChapter | allbrowser.py:685-694 | the hint exists exactly when the pair sits at a position other than the last, and it is an element that directly follows an occurrence of the pair |
| Keys.NextChapterIsSuccessor | allbrowser.py:685-694 | on a strictly increasing list the hint is the least pair after `(volume, chapter)` in the list; it is missing exactly when the pair is absent or has nothing after it |
| Paging.AfterEmptyPage | allbrowser.py:843-855 | after an empty catalog page the counter goes up; on the third empty page in a row the page resets to 1 and the counter to 0; otherwise the page advances below 100 and becomes 1 from 100 on |
| Paging.EmptyRunCounter | allbrowser.py:843-855 | after any number of empty pages the counter is that number modulo 3, and a page in 1..100 stays in 1..100 |
| Paging.EmptyRunResets | allbrowser.py:844-846 | every third empty page in a row, counted from a fresh counter, puts the bot back on page 1 with a fresh counter |
| Paging.PacingPolls | allbrowser.py:759-767 | the wait `3600 / speed` polls once a second while less time than that has elapsed: the smallest `n` with `n * speed >= 3600` |
| Paging.PacingMonotone | allbrowser.py:439-441 | a higher reading speed never gives a longer wait |
| Paging.PacingBounds | allbrowser.py:431 | for the speeds 1..666 that `get_reading_speed` accepts, the wait has 6 to 3600 polls |
| Snapshot.StrSet | allbrowser.py:282 | `set(list)` of a JSON list of strings holds exactly those strings; a list with any other element is rejected (see "Left out") |
| Snapshot.Load | allbrowser.py:272-285 | a missing or unreadable file changes nothing and gives `False`; a failed load never changes the processed set |
| Snapshot.SaveDoc | allbrowser.py:288-296 | the saved dictionary has exactly the five keys `load_state` reads, and the processed set as one string per listed key |
| Snapshot.LoadOfSave | allbrowser.py:272-296 | loading what `save_state` wrote restores page, title, volume, chapter and an equal processed set, whatever the list order and the prior state |
| Snapshot.LoadOfSnapshot | allbrowser.py:272-296 | the same, for any document that is a save of the state |
| Snapshot.LoadDefaults | allbrowser.py:278-282 | each missing key falls back to 1, `None`, 1, 1 or the empty set, whatever the other keys hold, as long as the scalar fields present are well typed; an empty object loads the initial state |
| Schedule.Checkpoint | allbrowser.py:723-726 | stops exactly when a flag is set once the listener's action has landed; a stop clears only the switch flag; otherwise the state is untouched |
| Schedule.Press | allbrowser.py:808-818 | 'q' sets `user_interrupt`, 'u' sets `switch_manga_flag` unless the listener has already stopped, and nothing else changes |
| Schedule.Poll | allbrowser.py:808-818 | a flag check lets at most one key press land: only the flags change, a set flag stays set, and with no key nothing happens |
| Schedule.Watch | allbrowser.py:660-662 | the scroll-through stops only on a set flag, changes nothing but the flags, clears neither flag, and consumes only key presses; a flag already up stops it at its first step, so one that runs on started with both flags down |
| Schedule.WatchStopsAtFirstKey | allbrowser.py:660-662 | the scroll-through stops right after the first key press within its steps, with that key's flag set |
| Schedule.WatchWithoutKeys | allbrowser.py:660-662 | without key presses the scroll-through runs all its steps and changes no state |
| Schedule.ReadChapter | allbrowser.py:592-700 | a processed key returns before any page is opened; only this chapter's key can be added, and only for an unavailable chapter or a completed scroll-through; a failure or a key press adds nothing; the title page is fetched again only after a scroll-through whose steps found no flag up, so a flag already up on entry records nothing for an opened chapter; position, page and title are untouched |
| Schedule.Hint | allbrowser.py:685-694 | a hint exists only after a completed read and is strictly after the chapter just read |
| Schedule.ReadChapterHint | allbrowser.py:682-694 | a completed scroll-through adds the key, and the hint is the chapter after `(volume, chapter)` in the re-fetched list |
| Schedule.Wait | allbrowser.py:759-767 | the pacing wait changes only the flags; a stop clears the switch flag; without a stop the state is untouched; a flag already up, as after a scroll-through cut short, ends it at its first second with `False`; it stops exactly when one of its one-second checks finds a flag |
| Schedule.WaitStopsAtFirstKey | allbrowser.py:761-766 | a key press during the wait ends it at the next one-second check, with the switch flag cleared and a 'q' kept |
| Schedule.WaitWithoutKeys | allbrowser.py:761-767 | without key presses the wait takes all its polls and changes no state |
| Schedule.PassTurn | allbrowser.py:741-767 | one turn of the chapter loop: a flag at the checkpoint returns `False` with no read; otherwise the chapter is handed to `read_chapter` exactly when its key is absent, with the position set to it first; a stop comes only from the checkpoint or from a one-second check of the pacing wait that found a flag, and the last chapter has no wait; a turn without a read is its checkpoint alone: no page, no visit, no pacing wait, no new key |
| Schedule.PassTurnStopsOnFlag | allbrowser.py:755-766 | a turn that stops after its checkpoint passed has handed over a chapter that is not the last, and its pacing wait stopped at a one-second check that found `user_interrupt` or `switch_manga_flag` up |
| Schedule.SkipTurn | allbrowser.py:741-750 | a turn over a chapter whose key is present reads nothing, keeps the set and consumes at most one key press |
| Schedule.Pass | allbrowser.py:740-767 | over the whole list the processed set only grows; page and title are kept; a stop leaves the switch flag clear; the position is the last chapter handed over, or unchanged if none was |
| Schedule.PassRecordsOnlyListed | allbrowser.py:740-767 | the only keys the loop adds are those of the chapters it walks |
| Schedule.UnreadMembers | allbrowser.py:748-750 | the chapters still to read are the listed ones whose key is absent, in list order |
| Schedule.PassReadsUnread | allbrowser.py:740-758 | the chapters handed over are a prefix of the unread chapters in list order, and all of them when no flag stopped the loop |
| Schedule.PassNeverRereads | allbrowser.py:746-750 | no chapter handed over had its key when the loop started |
| Schedule.PassSkipsFrom | allbrowser.py:740-750 | from any index, a pass over chapters whose keys are all present reads nothing and consumes only key presses, at most one per chapter |
| Schedule.PassSkipsProcessed | allbrowser.py:746-750 | a list whose keys are all processed is walked without a read, a visit, a pacing wait or a new key; only its checkpoints consume key presses |
| Schedule.Reposition | allbrowser.py:735-738 | the position ends up in the list: it is kept when already listed, and becomes the first chapter otherwise |
| Schedule.Refetch | allbrowser.py:729-733 | a non-empty list is kept without a fetch; a missing or empty one is replaced by `get_chapters` of the next title page; the list after it is never missing or empty, so the `return False` of 731-733 is never reached |
| Schedule.RoundTurn | allbrowser.py:722-783 | one turn of `while True`: a flag at the loop's checkpoint, or a list still missing or empty after the fetch (a branch `get_chapters` never lets run), returns `False` with no read; the loop goes on only when no flag stopped it and the re-fetched list is strictly longer and sorted |
| Schedule.UsableListStopsOnlyOnFlag | allbrowser.py:722-785 | every list `get_chapters` gives is non-empty, so the re-fetch keeps it, the `return False` at 731-733 is never reached, a turn stops exactly when its checkpoint or its pass stops, and the loop goes on only with a longer list |
| Schedule.CutScrollStopsPassTurn | allbrowser.py:755-766 | a scroll-through cut short by a key press, of a chapter that is not the last, records nothing, and the pacing wait after it returns `False` at its first second with the switch flag cleared |
| Schedule.RoundTurnGoesOnWhenLonger | allbrowser.py:769-785 | after a pass over a usable list ends without a stop, the loop goes on exactly when the list fetched afterwards is longer, and then with that list |
| Schedule.Rounds | allbrowser.py:722-785 | across turns the processed set only grows; page and title are kept; a stop leaves the switch flag clear; no read means no visit and no new key |
| Schedule.RoundsNeverReread | allbrowser.py:722-785 | however many turns the list growth causes, every chapter handed over had no key at the start |
| Schedule.ProcessManga | allbrowser.py:704-800 | the processed set only grows, page and title are kept, a stop request stays, `False` leaves the switch flag clear, and no chapter handed to `read_chapter` was processed at the start |
| Schedule.ProcessMangaNeverRereads | allbrowser.py:704-800 | `process_manga` never hands an already processed chapter to `read_chapter`, and never forgets a key |
| Schedule.ProcessMangaFlagAtEntry | allbrowser.py:708-726 | with a flag set on entry, `process_manga` fetches the list, returns `False` at its first checkpoint without a read, and clears the switch flag |
| Schedule.SwitchDuringLastScrollOutlivesProcessManga | allbrowser.py:660-662 | a 'u' during the scroll of a list's only chapter, with a list that does not grow: `process_manga` returns `True` with the flag still set, and the next title stops at its first checkpoint without a read |
| Session.LoopStep | allbrowser.py:830 | a turn of `while not self.user_interrupt` runs only when the flag is clear before and after the listener's action, and never forgets a key |
| Session.QuitEndsMainLoop | allbrowser.py:830 | a 'q' pressed before the loop test ends `main_loop` there: no catalog page is fetched and no title is picked |
| Session.LoopStepPreserves | allbrowser.py:830-862 | a turn of the loop runs only without a stop request, never forgets a key, and keeps the counter and the page in range |
| Session.MainStep | allbrowser.py:831-862 | an iteration never forgets a key or withdraws a stop; with a current title it ends with none; without one, it changes no key and fetches at most one catalog page |
| Session.MainStepPreserves | allbrowser.py:830-862 | an iteration never forgets a key, keeps the counter below 3 and the page in 1..100, and never withdraws a stop; a processed title is cleared; a picked title is a real slug of the catalog page, at volume 1, chapter 1, with the counter reset |
| Session.AbandonedTitleIsNotResumed | allbrowser.py:832-835 | after a title abandoned at a key press, the title is cleared and the switch flag is off, so the next iteration goes to the catalog |
| Session.ChainKeeps | allbrowser.py:830-862 | over any number of iterations the processed set only grows, a stop is never withdrawn, and the counter and page stay in range |
| Session.TwoChapterPageParses | allbrowser.py:566-590 | a title page linking chapter (1, 2) before (1, 1) yields the pairs in page order, and `get_chapters` sorts them to `[(1, 1), (1, 2)]` |
| Session.TwoTitleCatalogParses | allbrowser.py:530-542 | a catalog page with titles `a` and `b` gives `[a, b]` |
| Session.ScenarioFirstRead | allbrowser.py:592-694 | reading (1, 1) of that title records the key `a_1_1` and hints (1, 2) |
| Session.ScenarioPass | allbrowser.py:740-767 | walking `[(1, 1), (1, 2)]` with the second visit failing records only `a_1_1`, ends at (1, 2), and hands over both chapters |
| Session.SwitchDuringScrollAbortsProcessManga | allbrowser.py:741-766 | a 'u' during the scroll of the first of two unread chapters: `process_manga` returns `False`, (1, 1) is not recorded, (1, 2) is never handed over or opened, and the switch flag is cleared |
| Session.UnloadedTitlePageReadsFirstChapter | allbrowser.py:548-590 | a title page that does not load gives `[(1, 1)]`: with flags down, `process_manga` reads and records (1, 1) and returns `True` |
| Session.CatalogToTitleScenario | allbrowser.py:830-862 | the catalog gives titles `a` and `b` and `a` is picked; its run records `a_1_1` with the second read failing; the list does not grow; the next iteration clears the title |
| Reader.MangaReader.constructor | allbrowser.py:133-147 | the resume fields start at page 1, no title, volume 1, chapter 1 and no processed chapter; both flags off; speed 60 |
| Reader.MangaReader.SetReadingSpeed | allbrowser.py:964 | sets the speed, which `get_reading_speed` bounds to 1..666, and nothing else |
| Reader.MangaReader.LoadState | allbrowser.py:272-285 | the fields and the result are those `Snapshot.Load` gives; the flags, the speed and the world are untouched |
| Reader.MangaReader.SaveState | allbrowser.py:288-296 | the dictionary is a save of the current resume state, the set listed element by element |
| Reader.MangaReader.Poll | allbrowser.py:808-818 | the listener's next action lands on the flags: 'q' sets `user_interrupt`, 'u' sets `switch_manga_flag` |
| Reader.MangaReader.Checkpoint | allbrowser.py:723-726 | ends in the state `Schedule.Checkpoint` gives |
| Reader.MangaReader.FetchChapters | allbrowser.py:548-590 | the list is `Links.GetChapters` of the next title page; the state is untouched |
| Reader.MangaReader.FetchCatalog | allbrowser.py:514-545 | the titles are `Links.GetMangaFromCatalog` of the next catalog page; the state is untouched |
| Reader.MangaReader.ReadChapter | allbrowser.py:592-700 | the scroll loop and the hint lookup end in the state and hint `Schedule.ReadChapter` and `Schedule.Hint` give |
| Reader.MangaReader.PacingWait | allbrowser.py:759-767 | the one-second loop ends as `Schedule.Wait` with `PacingPolls(speed)` polls |
| Reader.MangaReader.PassStep | allbrowser.py:741-767 | one turn of the `for` loop ends as `Schedule.PassTurn` |
| Reader.MangaReader.PassOn | allbrowser.py:741-767 | after one turn, the pass still ahead is `Schedule.Pass` from the next index, or, on a stop, the pass has ended with the chapters handed over so far |
| Reader.MangaReader.PassOver | allbrowser.py:740-767 | the `for` loop ends as `Schedule.Pass`, with the chapters it handed over |
| Reader.MangaReader.Round | allbrowser.py:722-783 | one turn of `while True` ends as `Schedule.RoundTurn` |
| Reader.MangaReader.ProcessManga | allbrowser.py:704-800 | ends as `Schedule.ProcessManga`, whose `False` comes, by the contracts of `Schedule.RoundTurn`, `Schedule.RoundTurnGoesOnWhenLonger`, `Schedule.PassTurn`, `Schedule.PassTurnStopsOnFlag` and `Schedule.UsableListStopsOnlyOnFlag`, from a checkpoint or pacing second that found a flag; a title page that does not load gives `[(1, 1)]`, which is read |
| Reader.MangaReader.Iterate | allbrowser.py:831-862 | one iteration of `main_loop` is a `Session.MainStep` |
| Reader.MangaReader.Advance | allbrowser.py:830-862 | one turn of the loop: the listener's action lands and a set `user_interrupt` ends the loop; otherwise the iteration is a `Session.LoopStep` and extends the trail by one step |
| Reader.MangaReader.MainLoop | allbrowser.py:822-862 | the run is a chain of `Session.LoopStep`s from the starting state; it ends at a loop test that finds `user_interrupt` set, unless the fuel runs out; the processed set only grows and a page in 1..100 stays in range |

## Left out

- Browser session setup, `safe_get` with its retries, and the login and
  login-state probes. These are Selenium calls. Only their outcomes enter
  the model, as the pages and visits of the `World`.
- The favourite button, the randomised scroll positions, pauses and clicks
  in `read_chapter`. These are browser side effects. A visit is `Failed`,
  `Unavailable` or `Opened(steps)`, and the number of scroll steps
  (`random.randint(10, 20)`) comes with the visit.
- The keyboard listener thread. It is concurrent. Its effect is a scripted
  key stream that lands on the flags at each flag check, as the next key.
- The real clock. The pacing wait is an ideal clock polled once a second,
  so `3600 / speed` as a float is replaced by the number of polls.
- The JSON text and the state file I/O. `json.load`/`json.dump` are
  replaced by the parsed document, or by `Missing`/`Unreadable`.
- The `save_state` calls inside the loops. They only write the file.
- `log_message`, the Telegram notifier, `send_status_report`,
  `save_debug_info`, and `read_count`. `send_status_report` runs after each
  title pick while the number of processed chapters is a multiple of 10,
  including 0. These are I/O or
  feed only log messages.
- The exception handler of `main_loop`, including `sleep(10)` and the driver
  re-initialisation. So are the re-initialisations on a connection error in
  `read_chapter`. The failures they would handle are the `World`'s failed
  pages and visits.
- `get_credentials`, `UserIdentity`, `run` and `python/check_and_install.py`.
  These are console, OS and package I/O. `get_reading_speed` enters only
  as the bound 1..666 that `SetReadingSpeed` requires.
- Text.ParseInt: Python's `int()` also allows surrounding whitespace, `_`
  digit separators and non-ASCII Unicode decimal digits. Since Python 3.11 it
  also rejects strings of more than 4300 digits. The model accepts an
  optional sign followed by ASCII decimal digits, of any length.
- Snapshot.Load: a stored scalar of the wrong JSON type rejects the whole
  load, leaving the fields unchanged. Python would store it; the typed state
  cannot hold it. Numbers are integers, without floats.
- Snapshot.StrSet: a `processed_chapters` list holding numbers, booleans or
  `null` is rejected. Python's `set` accepts these values and fails only on
  nested lists or objects. A set of strings cannot hold them.
- Snapshot.Load: for such a list the model gives `False` with the processed
  set unchanged. Python would succeed and return `True`.
- Schedule.Poll: at most one key press lands per flag check. A 'u' and a 'q'
  pressed between two checks land at two successive checks.
- Links.GetChapters: an element whose `href` is missing or cannot be read
  is taken as the empty string. The empty string gives no pair, as in the
  source.
- Links.GetChapters: the '/manga/' links of a title page are not checked
  against the title's slug, as in the source.
- Reader.MangaReader.MainLoop: runs at most `fuel` iterations. It ends
  early only on a stop, because the source's loop need not terminate.
