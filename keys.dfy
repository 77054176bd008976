/** The two expressions `read_chapter` is built around: the key under which a
    chapter is recorded in `processed_chapters`, and the next-chapter hint
    looked up with `chapters.index(...)`. */
module Keys {
  import opened Wrappers
  import opened Text
  import opened Links

  /** `f"{manga_slug}_{volume}_{chapter}"`: the three parts joined by '_'. */
  function ChapterKey(slug: string, volume: int, chapter: int): (k: string)
    // the key splits back into its three parts when the slug holds no '_'
    ensures '_' !in slug ==> Split(k, '_') == [slug, IntToString(volume), IntToString(chapter)]
  {
    var parts := [slug, IntToString(volume), IntToString(chapter)];
    if '_' in slug then Join(parts, '_')
    else SplitOfJoin(parts, '_'); Join(parts, '_')
  }

  function KeyOf(slug: string, p: Pair): string
  {
    ChapterKey(slug, p.0, p.1)
  }

  /** The key written out as the f-string builds it. */
  lemma KeyParts(slug: string, volume: int, chapter: int)
    ensures ChapterKey(slug, volume, chapter) == slug + "_" + IntToString(volume) + "_" + IntToString(chapter)
  {
    var v, c := IntToString(volume), IntToString(chapter);
    assert [slug, v, c][1..] == [v, c] && [v, c][1..] == [c];
    assert Join([v, c], '_') == v + ['_'] + c;
    assert slug + ['_'] + (v + ['_'] + c) == slug + "_" + v + "_" + c;
  }

  /** Two chapters share a key only when they are the same chapter of the same
      title: the two numbers hold no '_', so the key splits back from the right
      even when a slug contains '_'. */
  lemma ChapterKeyInjective(slug: string, volume: int, chapter: int,
                            slug': string, volume': int, chapter': int)
    requires ChapterKey(slug, volume, chapter) == ChapterKey(slug', volume', chapter')
    ensures slug == slug' && volume == volume' && chapter == chapter'
  {
    var v, c := IntToString(volume), IntToString(chapter);
    var v', c' := IntToString(volume'), IntToString(chapter');
    KeyParts(slug, volume, chapter);
    KeyParts(slug', volume', chapter');
    SplitAtLastSeparator(slug + "_" + v, c, slug' + "_" + v', c', '_');
    SplitAtLastSeparator(slug, v, slug', v', '_');
    IntToStringInjective(volume, volume');
    IntToStringInjective(chapter, chapter');
  }

  /** `s.index(x)`: the first position of `x`, or `None` for Python's `ValueError`. */
  function IndexOf(s: seq<Pair>, x: Pair): (r: Option<nat>)
    ensures r.Some? ==> r.value < |s| && s[r.value] == x && forall j :: 0 <= j < r.value ==> s[j] != x
    ensures r.None? <==> x !in s
    decreases |s|
  {
    if |s| == 0 then None
    else if s[0] == x then Some(0)
    else
      match IndexOf(s[1..], x)
      case Some(i) => Some(i + 1)
      case None => None
  }

  /** The hint of allbrowser.py:685-694: the element right after the first
      occurrence of `p`, or `None` when `p` is absent or last. */
  function NextChapter(chapters: seq<Pair>, p: Pair): (r: Option<Pair>)
    ensures r.Some? <==> exists i :: 0 <= i < |chapters| - 1 && chapters[i] == p
    ensures r.Some? ==> exists i :: 0 <= i < |chapters| - 1 && chapters[i] == p && chapters[i + 1] == r.value
  {
    match IndexOf(chapters, p)
    case Some(i) => if i + 1 < |chapters| then Some(chapters[i + 1]) else None
    case None => None
  }

  /** In a sorted list the hint is the immediate successor of `p`: it is listed,
      comes after `p`, and nothing listed lies strictly between the two; the hint
      is `None` exactly when `p` is not listed or nothing listed comes after it. */
  lemma NextChapterIsSuccessor(chapters: seq<Pair>, p: Pair)
    requires StrictlySorted(chapters)
    ensures NextChapter(chapters, p).Some? ==>
      var q := NextChapter(chapters, p).value;
      && p in chapters && q in chapters && Before(p, q)
      && forall x :: x in chapters && Before(p, x) ==> x == q || Before(q, x)
    ensures NextChapter(chapters, p).None? <==>
      p !in chapters || forall x :: x in chapters ==> !Before(p, x)
  {
    match IndexOf(chapters, p)
    case None =>
    case Some(i) =>
      forall x | x in chapters && Before(p, x)
        ensures i + 1 < |chapters| && (x == chapters[i + 1] || Before(chapters[i + 1], x))
      {
        var k :| 0 <= k < |chapters| && chapters[k] == x;
        assert k < i ==> Before(x, p);
      }
      if i + 1 < |chapters| {
        assert chapters[i + 1] in chapters;
      }
  }
}
