/** The two href parsers of `MangaReader`: `get_chapters`, which turns the
    links of a title page into its sorted, de-duplicated (volume, chapter)
    list, and `get_manga_from_catalog`, which turns the cards of a catalog
    page into title slugs; and the URLs the reader navigates to. */
module Links {
  import opened Wrappers
  import opened Text

  /** A (volume, chapter) position. */
  type Pair = (int, int)

  /** The order `sorted(..., key=lambda x: (x[0], x[1]))` uses. */
  predicate Before(a: Pair, b: Pair)
  {
    a.0 < b.0 || (a.0 == b.0 && a.1 < b.1)
  }

  predicate StrictlySorted(s: seq<Pair>)
  {
    forall i, j :: 0 <= i < j < |s| ==> Before(s[i], s[j])
  }

  /** What the browser hands back for a page: the page did not load
      (`safe_get` raised on its last attempt, or raised an exception it does
      not retry), no matching element appeared before the wait timed out, or
      the `href` of each matching element (an element whose `href` is
      missing or unreadable contributes the empty string). */
  datatype Page = LoadFailed | NoElements | Elements(hrefs: seq<string>)

  const Site := "https://mangabuff.ru"
  const MangaMarker := "/manga/"

  /** The title page `get_chapters` opens. */
  function MangaUrl(slug: string): string
  {
    Site + "/manga/" + slug
  }

  /** The chapter page `read_chapter` opens. */
  function ChapterUrl(slug: string, volume: int, chapter: int): string
  {
    MangaUrl(slug) + "/" + IntToString(volume) + "/" + IntToString(chapter)
  }

  // ---------------------------------------------------------------- get_chapters

  /** One link of a title page: a pair when the href holds '/manga/', has at
      least five '/'-pieces and its last two pieces are integers. */
  function ChapterLink(href: string): (r: Option<Pair>)
    // the chapter is the integer of the href's last '/'-piece, the volume that of the one before
    ensures r.Some? ==>
      var parts := Split(href, '/');
      && Contains(href, MangaMarker) && |parts| >= 5
      && ParseInt(parts[|parts| - 2]) == Some(r.value.0) && ParseInt(Last(parts)) == Some(r.value.1)
  {
    if !Contains(href, MangaMarker) then None
    else
      var parts := Split(href, '/');
      if |parts| < 5 then None
      else
        match (ParseInt(parts[|parts| - 2]), ParseInt(parts[|parts| - 1]))
        case (Some(volume), Some(chapter)) => Some((volume, chapter))
        case _ => None
  }

  /** The pairs of the loop at allbrowser.py:566-576, in link order. */
  function ChapterPairs(hrefs: seq<string>): (r: seq<Pair>)
    ensures |r| <= |hrefs|
    decreases |hrefs|
  {
    if |hrefs| == 0 then []
    else
      var rest := ChapterPairs(hrefs[1..]);
      match ChapterLink(hrefs[0])
      case Some(p) => [p] + rest
      case None => rest
  }

  /** Adds `x` to a strictly sorted list, keeping it strictly sorted. */
  function Insert(x: Pair, s: seq<Pair>): (r: seq<Pair>)
    requires StrictlySorted(s)
    ensures StrictlySorted(r)
    ensures forall y :: y in r <==> y == x || y in s
    decreases |s|
  {
    if |s| == 0 then [x]
    else if x == s[0] then s
    else if Before(x, s[0]) then [x] + s
    else
      var tail := Insert(x, s[1..]);
      assert forall y :: y in tail ==> Before(s[0], y);
      [s[0]] + tail
  }

  /** `sorted(list(set(ps)))`: strictly increasing, with exactly the elements of `ps`. */
  function SortUnique(ps: seq<Pair>): (r: seq<Pair>)
    ensures StrictlySorted(r)
    ensures forall y :: y in r <==> y in ps
    decreases |ps|
  {
    if |ps| == 0 then [] else Insert(ps[0], SortUnique(ps[1..]))
  }

  /** `get_chapters` once the page has been fetched. It never gives `None`:
      `safe_get` returns `True` or raises, so its `return None` branch is
      dead and a page that did not load falls into the outer handler, which
      gives `[(1, 1)]`. The result is a non-empty strictly increasing list
      holding exactly the pairs parsed from the links, or `[(1, 1)]` when the
      page did not load, no element appeared or no link gives a pair. */
  function GetChapters(page: Page): (r: Option<seq<Pair>>)
    ensures r.Some? && |r.value| >= 1 && StrictlySorted(r.value)
    ensures page.Elements? && ChapterPairs(page.hrefs) != [] ==>
      forall y :: y in r.value <==> y in ChapterPairs(page.hrefs)
    ensures !page.Elements? || ChapterPairs(page.hrefs) == [] ==> r == Some([(1, 1)])
  {
    match page
    case LoadFailed => Some([(1, 1)])
    case NoElements => Some([(1, 1)])
    case Elements(hrefs) =>
      var chapters := SortUnique(ChapterPairs(hrefs));
      if chapters == [] then
        Some([(1, 1)])
      else
        Some(chapters)
  }

  /** A pair is parsed exactly when some link yields it. */
  lemma {:induction false} ChapterPairsMembers(hrefs: seq<string>, p: Pair)
    ensures p in ChapterPairs(hrefs) <==> exists h :: h in hrefs && ChapterLink(h) == Some(p)
    decreases |hrefs|
  {
    if |hrefs| > 0 {
      ChapterPairsMembers(hrefs[1..], p);
      if p !in ChapterPairs(hrefs) {
        forall h | h in hrefs ensures ChapterLink(h) != Some(p) {
          if h != hrefs[0] {
            assert h in hrefs[1..];
          }
        }
      } else if ChapterLink(hrefs[0]) != Some(p) {
        var h :| h in hrefs[1..] && ChapterLink(h) == Some(p);
        assert h in hrefs;
      }
    }
  }

  /** Link order is kept: the pairs of two runs of links are the two lists concatenated. */
  lemma {:induction false} ChapterPairsAppend(a: seq<string>, b: seq<string>)
    ensures ChapterPairs(a + b) == ChapterPairs(a) + ChapterPairs(b)
    decreases |a|
  {
    if |a| > 0 {
      assert (a + b)[1..] == a[1..] + b;
      ChapterPairsAppend(a[1..], b);
    } else {
      assert a + b == b;
    }
  }

  /** Every element of a strictly sorted list is its first element or comes after it. */
  lemma FirstIsLeast(s: seq<Pair>, x: Pair)
    requires StrictlySorted(s) && x in s
    ensures x == s[0] || Before(s[0], x)
  {
    var i :| 0 <= i < |s| && s[i] == x;
  }

  /** A strictly sorted list is fixed by its elements, so `SortUnique` is THE sorted de-duplication. */
  lemma {:induction false} SortedByElements(a: seq<Pair>, b: seq<Pair>)
    requires StrictlySorted(a) && StrictlySorted(b)
    requires forall y :: y in a <==> y in b
    ensures a == b
    decreases |a|
  {
    assert |a| > 0 ==> a[0] in b;
    assert |b| > 0 ==> b[0] in a;
    if |a| > 0 {
      FirstIsLeast(a, b[0]);
      FirstIsLeast(b, a[0]);
      assert a[0] == b[0];
      forall y ensures y in a[1..] <==> y in b[1..] {
        if y in a[1..] {
          var i :| 1 <= i < |a| && a[i] == y;
          assert Before(a[0], y);
          assert y in b && y != b[0];
        }
        if y in b[1..] {
          var i :| 1 <= i < |b| && b[i] == y;
          assert Before(b[0], y);
          assert y in a && y != a[0];
        }
      }
      SortedByElements(a[1..], b[1..]);
      assert a == [a[0]] + a[1..] && b == [b[0]] + b[1..];
    }
  }

  /** Two more separator-free pieces appended each after a separator. */
  lemma SplitTwoMore(a: string, v: string, c: string, sep: char)
    requires sep !in v && sep !in c
    ensures var parts := Split(a + [sep] + v + [sep] + c, sep);
      |parts| >= 3 && parts == Split(a, sep) + [v, c]
  {
    SplitAppend(a, v, sep);
    SplitAppend(a + [sep] + v, c, sep);
  }

  /** A chapter URL ends in the two numbers as its last two of at least
      five '/'-pieces. */
  lemma ChapterUrlPieces(slug: string, volume: int, chapter: int)
    requires '/' !in slug
    ensures var url, v, c := ChapterUrl(slug, volume, chapter), IntToString(volume), IntToString(chapter);
      var parts := Split(url, '/');
      |parts| >= 5 && parts[|parts| - 2] == v && parts[|parts| - 1] == c
  {
    var v, c := IntToString(volume), IntToString(chapter);
    assert Site + "/manga/" == Site + "/" + "manga" + "/";
    SplitAppend(Site, "manga", '/');
    SplitAppend(Site + "/" + "manga", slug, '/');
    SplitTwoMore(MangaUrl(slug), v, c, '/');
  }

  /** The link `read_chapter` follows is parsed back to its own pair, so the
      parser accepts every chapter URL of a slug without '/'. */
  lemma ChapterLinkOfUrl(slug: string, volume: int, chapter: int)
    requires '/' !in slug
    ensures ChapterLink(ChapterUrl(slug, volume, chapter)) == Some((volume, chapter))
  {
    var url := ChapterUrl(slug, volume, chapter);
    var v, c := IntToString(volume), IntToString(chapter);
    assert url == Site + MangaMarker + (slug + "/" + v + "/" + c);
    ContainsMiddle(Site, MangaMarker, slug + "/" + v + "/" + c);
    assert Contains(url, MangaMarker);
    ChapterUrlPieces(slug, volume, chapter);
    var parts := Split(url, '/');
    assert |parts| >= 5 && parts[|parts| - 2] == v && parts[|parts| - 1] == c;
    ParseIntOfIntToString(volume);
    ParseIntOfIntToString(chapter);
    assert ParseInt(parts[|parts| - 2]) == Some(volume) && ParseInt(parts[|parts| - 1]) == Some(chapter);
  }

  // ------------------------------------------------------- get_manga_from_catalog

  /** One catalog card: the last '/'-piece of an href holding '/manga/',
      unless that piece is empty or is 'manga'. */
  function CatalogSlug(href: string): (r: Option<string>)
    // a slug is a non-empty, '/'-free ending of a '/manga/' href, never 'manga'
    ensures r.Some? ==>
      && Contains(href, MangaMarker) && r.value != "" && r.value != "manga" && '/' !in r.value
      && |r.value| <= |href| && href[|href| - |r.value|..] == r.value
  {
    if !Contains(href, MangaMarker) then None
    else
      var slug := Last(Split(href, '/'));
      LastPieceIsSuffix(href, '/');
      if slug != "" && slug != "manga" then Some(slug) else None
  }

  /** The slugs of the loop at allbrowser.py:530-537, in card order, duplicates kept. */
  function CatalogSlugs(hrefs: seq<string>): (r: seq<string>)
    ensures |r| <= |hrefs|
    ensures forall i :: 0 <= i < |r| ==> r[i] != "" && r[i] != "manga" && '/' !in r[i]
    decreases |hrefs|
  {
    if |hrefs| == 0 then []
    else
      var rest := CatalogSlugs(hrefs[1..]);
      match CatalogSlug(hrefs[0])
      case Some(slug) => [slug] + rest
      case None => rest
  }

  /** `get_manga_from_catalog` once the page has been fetched: `None` when the
      page did not load, no card appeared, or no card gave a slug; otherwise
      the non-empty list of slugs. */
  function GetMangaFromCatalog(page: Page): (r: Option<seq<string>>)
    ensures r.Some? ==> |r.value| >= 1 && page.Elements? && r.value == CatalogSlugs(page.hrefs)
    ensures r.None? <==> !page.Elements? || CatalogSlugs(page.hrefs) == []
  {
    if page.Elements? && CatalogSlugs(page.hrefs) != [] then Some(CatalogSlugs(page.hrefs)) else None
  }

  /** Every slug is a non-empty, '/'-free suffix of some card's href that holds
      '/manga/', follows a '/', and is not 'manga'; and every such card is kept. */
  lemma {:induction false} CatalogSlugsMembers(hrefs: seq<string>, slug: string)
    ensures slug in CatalogSlugs(hrefs) <==> exists h :: h in hrefs && CatalogSlug(h) == Some(slug)
    ensures slug in CatalogSlugs(hrefs) ==>
      && slug != "" && slug != "manga" && '/' !in slug
      && exists h :: h in hrefs && Contains(h, MangaMarker) && |slug| < |h|
           && h[|h| - |slug|..] == slug && h[|h| - |slug| - 1] == '/'
    decreases |hrefs|
  {
    if |hrefs| > 0 {
      CatalogSlugsMembers(hrefs[1..], slug);
      var h0 := hrefs[0];
      if slug !in CatalogSlugs(hrefs) {
        forall h | h in hrefs ensures CatalogSlug(h) != Some(slug) {
          if h != h0 {
            assert h in hrefs[1..];
          }
        }
      } else if CatalogSlug(h0) == Some(slug) {
        LastPieceIsSuffix(h0, '/');
        var i :| 0 <= i <= |h0| && MangaMarker <= h0[i..];
        assert h0[i] == '/';
        assert '/' in h0;
      } else {
        var h :| h in hrefs[1..] && CatalogSlug(h) == Some(slug);
        assert h in hrefs;
      }
    }
  }

  /** Card order and duplicates are kept: slugs of two runs of cards concatenate. */
  lemma {:induction false} CatalogSlugsAppend(a: seq<string>, b: seq<string>)
    ensures CatalogSlugs(a + b) == CatalogSlugs(a) + CatalogSlugs(b)
    decreases |a|
  {
    if |a| > 0 {
      assert (a + b)[1..] == a[1..] + b;
      CatalogSlugsAppend(a[1..], b);
    } else {
      assert a + b == b;
    }
  }

  /** The title URL of a slug is parsed back to that slug. */
  lemma CatalogSlugOfUrl(slug: string)
    requires slug != "" && slug != "manga" && '/' !in slug
    ensures CatalogSlug(MangaUrl(slug)) == Some(slug)
  {
    assert MangaUrl(slug) == Site + MangaMarker + slug;
    ContainsMiddle(Site, MangaMarker, slug);
    assert Site + "/manga/" + slug == (Site + "/manga") + "/" + slug;
    SplitAppend(Site + "/manga", slug, '/');
  }
}
