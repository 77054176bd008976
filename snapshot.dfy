/** The resume state as `save_state` writes it and `load_state` reads it back:
    the dictionary between the two, not the JSON text or the file. */
module Snapshot {
  import opened Wrappers

  /** A JSON value as `json.load` returns it; numbers are integers here. */
  datatype Value =
    | Null
    | Bool(b: bool)
    | Int(i: int)
    | Str(s: string)
    | Arr(items: seq<Value>)
    | Obj(fields: map<string, Value>)

  /** What `load_state` finds: no file, a file that cannot be read or parsed,
      or the parsed document. */
  datatype StateFile = Missing | Unreadable | Parsed(doc: Value)

  /** The persisted fields of `MangaReader`. */
  datatype Resume = Resume(page: int, manga: Option<string>, volume: int, chapter: int, processed: set<string>)

  /** The state of a fresh `MangaReader` (allbrowser.py:133-137), which is
      also what the per-key defaults of `load_state` give. */
  const Initial := Resume(1, None, 1, 1, {})

  /** `listing` is `list(processed)`: each element of the set exactly once, in some order. */
  ghost predicate Lists(listing: seq<string>, processed: set<string>)
  {
    && (forall x :: x in listing <==> x in processed)
    && (forall i, j :: 0 <= i < j < |listing| ==> listing[i] != listing[j])
  }

  function MangaValue(manga: Option<string>): Value
  {
    match manga
    case None => Null
    case Some(slug) => Str(slug)
  }

  function StrValues(xs: seq<string>): (vs: seq<Value>)
    ensures |vs| == |xs| && forall i :: 0 <= i < |xs| ==> vs[i] == Str(xs[i])
    decreases |xs|
  {
    if |xs| == 0 then [] else [Str(xs[0])] + StrValues(xs[1..])
  }

  /** The dictionary `save_state` builds (allbrowser.py:290-296). */
  function SaveDoc(r: Resume, listing: seq<string>): (doc: Value)
    // exactly the five keys `load_state` reads, the set as one string per listed key
    ensures doc.Obj? && doc.fields.Keys == {"current_page", "current_manga", "current_volume", "current_chapter", "processed_chapters"}
    ensures var list := doc.fields["processed_chapters"];
      list.Arr? && |list.items| == |listing| && forall i :: 0 <= i < |listing| ==> list.items[i] == Str(listing[i])
  {
    Obj(map[
      "current_page" := Int(r.page),
      "current_manga" := MangaValue(r.manga),
      "current_volume" := Int(r.volume),
      "current_chapter" := Int(r.chapter),
      "processed_chapters" := Arr(StrValues(listing))])
  }

  /** `doc` is what `save_state` writes for `r`, for some order of the set. */
  ghost predicate IsSnapshotOf(doc: Value, r: Resume)
  {
    exists listing :: Lists(listing, r.processed) && doc == SaveDoc(r, listing)
  }

  /** `state.get(key, 1)` for the integer fields; `None` for a value of another
      JSON type, which the typed model cannot hold. */
  function IntField(m: map<string, Value>, key: string): Option<int>
  {
    if key !in m then Some(1)
    else if m[key].Int? then Some(m[key].i)
    else None
  }

  /** `state.get("current_manga")`: absent and `null` are both `None`. */
  function MangaField(m: map<string, Value>): Option<Option<string>>
  {
    var key := "current_manga";
    if key !in m || m[key].Null? then Some(None)
    else if m[key].Str? then Some(Some(m[key].s))
    else None
  }

  /** The set of the strings of a JSON list, or `None` if it holds anything
      else. Python's `set` also takes numbers, booleans and `null` and fails
      only on nested lists and objects; a set of strings cannot hold those
      values, so such a list is rejected here. */
  function StrSet(items: seq<Value>): (r: Option<set<string>>)
    ensures r.Some? ==> forall x :: x in r.value <==> Str(x) in items
    ensures r.None? ==> exists v :: v in items && !v.Str?
    decreases |items|
  {
    if |items| == 0 then Some({})
    else if !items[0].Str? then None
    else
      match StrSet(items[1..])
      case None => None
      case Some(rest) => Some({items[0].s} + rest)
  }

  /** `set(state.get("processed_chapters", []))`: a list of strings gives its
      elements, a string its one-character substrings, an object its keys;
      `None` stands for the `TypeError` `set` raises on a number, a boolean
      or `null`, and for a list that `StrSet` rejects. */
  function ProcessedField(m: map<string, Value>): Option<set<string>>
  {
    var key := "processed_chapters";
    if key !in m then Some({})
    else
      match m[key]
      case Arr(items) => StrSet(items)
      case Str(s) => Some(set i | 0 <= i < |s| :: [s[i]])
      case Obj(fields) => Some(fields.Keys)
      case _ => None
  }

  /** `load_state` (allbrowser.py:272-285): the new persisted fields and its
      result. A missing or unreadable file, or a document that is not an
      object, changes nothing. The scalar fields take the stored value or
      their default; if `set(...)` then fails they stay assigned while the
      processed set is kept and the result is `False`. */
  function Load(current: Resume, file: StateFile): (r: (Resume, bool))
    ensures !file.Parsed? ==> r == (current, false)
    ensures !r.1 ==> r.0.processed == current.processed
  {
    if !file.Parsed? || !file.doc.Obj? then (current, false)
    else
      var m := file.doc.fields;
      var page, manga, volume, chapter :=
        IntField(m, "current_page"), MangaField(m), IntField(m, "current_volume"), IntField(m, "current_chapter");
      if page.None? || manga.None? || volume.None? || chapter.None? then (current, false)
      else
        var scalars := current.(page := page.value, manga := manga.value, volume := volume.value, chapter := chapter.value);
        match ProcessedField(m)
        case Some(processed) => (scalars.(processed := processed), true)
        case None => (scalars, false)
  }

  /** Loading what `save_state` wrote restores every persisted field, and the
      processed set comes back equal (list back to set), whatever state was
      loaded into and whatever order the list had. */
  lemma LoadOfSave(current: Resume, r: Resume, listing: seq<string>)
    requires Lists(listing, r.processed)
    ensures Load(current, Parsed(SaveDoc(r, listing))) == (r, true)
  {
    var vs := StrValues(listing);
    var done := StrSet(vs);
    assert forall x :: Str(x) in vs <==> x in listing by {
      forall x ensures Str(x) in vs <==> x in listing {
        if Str(x) in vs {
          var i :| 0 <= i < |vs| && vs[i] == Str(x);
          assert listing[i] == x;
        }
        if x in listing {
          var i :| 0 <= i < |listing| && listing[i] == x;
          assert vs[i] == Str(x);
        }
      }
    }
    assert done.Some?;
    assert done.value == r.processed;
    match r.manga
    case None =>
    case Some(slug) =>
  }

  /** The same, for a document known only to be a snapshot of `r`. */
  lemma LoadOfSnapshot(current: Resume, doc: Value, r: Resume)
    requires IsSnapshotOf(doc, r)
    ensures Load(current, Parsed(doc)) == (r, true)
  {
    var listing :| Lists(listing, r.processed) && doc == SaveDoc(r, listing);
    LoadOfSave(current, r, listing);
  }

  /** The stored scalars have the JSON types `save_state` writes. */
  predicate ScalarsTyped(m: map<string, Value>)
  {
    IntField(m, "current_page").Some? && MangaField(m).Some?
    && IntField(m, "current_volume").Some? && IntField(m, "current_chapter").Some?
  }

  /** Each missing key falls back to its own default, whatever the other keys
      hold, as long as the scalar fields present are well typed: page, volume
      and chapter 1, no title and an empty processed set;
      an empty object therefore loads the initial state. */
  lemma LoadDefaults(current: Resume, m: map<string, Value>)
    requires ScalarsTyped(m)
    ensures var r := Load(current, Parsed(Obj(m)));
      && ("current_page" !in m ==> r.0.page == 1)
      && ("current_manga" !in m ==> r.0.manga == None)
      && ("current_volume" !in m ==> r.0.volume == 1)
      && ("current_chapter" !in m ==> r.0.chapter == 1)
      && ("processed_chapters" !in m ==> r.1 && r.0.processed == {})
    ensures Load(current, Parsed(Obj(map[]))) == (Initial, true)
  {
  }
}
