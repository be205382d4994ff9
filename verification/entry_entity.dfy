/**
 * The persisted robots.txt entry (`RobotsTxtEntryEntity`) without its ORM
 * parts: a name, an optional description, the sitemap and comment lists and
 * the active flag. The two lists behave like insertion-ordered sets under
 * the add and remove operations.
 */
module EntryEntities {
  import opened Options

  /**
   * `name` is `None` until `setName` is called: `RobotsTxtEntryEntity`
   * declares `$name` without a default, so reading it earlier is an error.
   */
  datatype EntryEntity = EntryEntity(
    name: Option<string>,
    description: Option<string>,
    sitemaps: seq<string>,
    comments: seq<string>,
    active: bool)

  /** The constructor: no name yet, no description, empty lists, active. */
  function NewEntity(): (e: EntryEntity)
    ensures e.name.None? && e.description.None?
    ensures e.sitemaps == [] && e.comments == []
    ensures e.active
  {
    EntryEntity(None, None, [], [], true)
  }

  function SetName(e: EntryEntity, name: string): (e': EntryEntity)
    ensures e'.name == Some(name)
    ensures e'.description == e.description && e'.sitemaps == e.sitemaps
    ensures e'.comments == e.comments && e'.active == e.active
  {
    e.(name := Some(name))
  }

  function SetActive(e: EntryEntity, active: bool): (e': EntryEntity)
    ensures e'.active == active
    ensures e'.name == e.name && e'.description == e.description
    ensures e'.sitemaps == e.sitemaps && e'.comments == e.comments
  {
    e.(active := active)
  }

  // ---------------------------------------------------------------------
  // List operations shared by sitemaps and comments

  /** Append `x` unless it is already present (a strict `in_array` test). */
  function AddUnique(xs: seq<string>, x: string): (r: seq<string>)
    ensures x in r
    ensures x in xs ==> r == xs
    ensures x !in xs ==> r == xs + [x]
  {
    if x in xs then xs else xs + [x]
  }

  /** Delete the first occurrence of `x` (found by `array_search`) and close the gap. */
  function RemoveFirst(xs: seq<string>, x: string): (r: seq<string>)
    ensures x !in xs ==> r == xs
    ensures x in xs ==> |r| == |xs| - 1
    ensures multiset(r) == multiset(xs) - multiset{x}
  {
    if |xs| == 0 then []
    else
      assert xs == [xs[0]] + xs[1..];
      if xs[0] == x then xs[1..] else [xs[0]] + RemoveFirst(xs[1..], x)
  }

  ghost predicate NoDuplicates(xs: seq<string>)
  {
    forall i, j :: 0 <= i < j < |xs| ==> xs[i] != xs[j]
  }

  /** Position of the first occurrence of `x`: what `array_search` returns. */
  function IndexOf(xs: seq<string>, x: string): (i: nat)
    requires x in xs
    ensures i < |xs| && xs[i] == x && x !in xs[..i]
  {
    if xs[0] == x then 0 else 1 + IndexOf(xs[1..], x)
  }

  /** Removal cuts the list at the first occurrence: everything before it, then everything after it. */
  lemma {:induction false} RemoveFirstSplits(xs: seq<string>, x: string)
    requires x in xs
    ensures RemoveFirst(xs, x) == xs[..IndexOf(xs, x)] + xs[IndexOf(xs, x) + 1..]
  {
    if xs[0] == x {
      assert IndexOf(xs, x) == 0;
      assert xs[..0] + xs[1..] == xs[1..];
    } else {
      var t := xs[1..];
      assert x in t;
      RemoveFirstSplits(t, x);
      var i := IndexOf(t, x);
      assert IndexOf(xs, x) == i + 1;
      assert RemoveFirst(xs, x) == [xs[0]] + (t[..i] + t[i + 1..]);
      SplitShift(xs, i);
    }
  }

  lemma SplitShift(xs: seq<string>, i: nat)
    requires i + 1 < |xs|
    ensures [xs[0]] + (xs[1..][..i] + xs[1..][i + 1..]) == xs[..i + 1] + xs[i + 2..]
  {
    assert xs[1..][..i] == xs[1..i + 1];
    assert xs[1..][i + 1..] == xs[i + 2..];
    assert [xs[0]] + xs[1..i + 1] == xs[..i + 1];
  }

  /** Removing a value that was appended to a list not holding it gives the list back. */
  lemma {:induction false} RemoveAfterAppend(xs: seq<string>, x: string)
    requires x !in xs
    ensures RemoveFirst(xs + [x], x) == xs
  {
    if |xs| == 0 {
      assert xs + [x] == [x];
    } else {
      assert (xs + [x])[1..] == xs[1..] + [x];
      assert xs[0] != x;
      RemoveAfterAppend(xs[1..], x);
      assert xs == [xs[0]] + xs[1..];
    }
  }

  lemma AddUniqueKeepsDistinct(xs: seq<string>, x: string)
    requires NoDuplicates(xs)
    ensures NoDuplicates(AddUnique(xs, x))
  {
  }

  lemma SkipIndex(xs: seq<string>, i: nat, k: nat)
    requires i < |xs| && k < |xs| - 1
    ensures (xs[..i] + xs[i + 1..])[k] == xs[if k < i then k else k + 1]
  {
  }

  lemma RemoveFirstKeepsDistinct(xs: seq<string>, x: string)
    requires NoDuplicates(xs)
    ensures NoDuplicates(RemoveFirst(xs, x))
    ensures x !in RemoveFirst(xs, x)
  {
    if x in xs {
      var i := IndexOf(xs, x);
      RemoveFirstSplits(xs, x);
      var r := xs[..i] + xs[i + 1..];
      forall a, b | 0 <= a < b < |r| ensures r[a] != r[b] {
        SkipIndex(xs, i, a);
        SkipIndex(xs, i, b);
      }
      forall k | 0 <= k < |r| ensures r[k] != x {
        SkipIndex(xs, i, k);
      }
    }
  }

  // ---------------------------------------------------------------------
  // The entity's add and remove operations

  function AddSitemap(e: EntryEntity, url: string): (e': EntryEntity)
    ensures e'.sitemaps == AddUnique(e.sitemaps, url)
    ensures e'.name == e.name && e'.description == e.description
    ensures e'.comments == e.comments && e'.active == e.active
  {
    e.(sitemaps := AddUnique(e.sitemaps, url))
  }

  function RemoveSitemap(e: EntryEntity, url: string): (e': EntryEntity)
    ensures e'.sitemaps == RemoveFirst(e.sitemaps, url)
    ensures e'.name == e.name && e'.description == e.description
    ensures e'.comments == e.comments && e'.active == e.active
  {
    e.(sitemaps := RemoveFirst(e.sitemaps, url))
  }

  function AddComment(e: EntryEntity, comment: string): (e': EntryEntity)
    ensures e'.comments == AddUnique(e.comments, comment)
    ensures e'.name == e.name && e'.description == e.description
    ensures e'.sitemaps == e.sitemaps && e'.active == e.active
  {
    e.(comments := AddUnique(e.comments, comment))
  }

  function RemoveComment(e: EntryEntity, comment: string): (e': EntryEntity)
    ensures e'.comments == RemoveFirst(e.comments, comment)
    ensures e'.name == e.name && e'.description == e.description
    ensures e'.sitemaps == e.sitemaps && e'.active == e.active
  {
    e.(comments := RemoveFirst(e.comments, comment))
  }

  /** Adding a sitemap twice is adding it once; the same holds for comments. */
  lemma AddIdempotent(e: EntryEntity, url: string, comment: string)
    ensures AddSitemap(AddSitemap(e, url), url) == AddSitemap(e, url)
    ensures AddComment(AddComment(e, comment), comment) == AddComment(e, comment)
  {
  }

  /** Adding a new value and removing it again restores the entity. */
  lemma AddThenRemove(e: EntryEntity, url: string, comment: string)
    ensures url !in e.sitemaps ==> RemoveSitemap(AddSitemap(e, url), url) == e
    ensures comment !in e.comments ==> RemoveComment(AddComment(e, comment), comment) == e
  {
    if url !in e.sitemaps {
      RemoveAfterAppend(e.sitemaps, url);
    }
    if comment !in e.comments {
      RemoveAfterAppend(e.comments, comment);
    }
  }

  /**
   * Each add and remove keeps both lists free of duplicates. A new entity
   * starts with empty lists, so an entity built by these operations alone
   * holds every value at most once, and a removed value is then gone
   * entirely.
   */
  lemma OperationsKeepDistinct(e: EntryEntity, url: string, comment: string)
    requires NoDuplicates(e.sitemaps) && NoDuplicates(e.comments)
    ensures NoDuplicates(AddSitemap(e, url).sitemaps) && NoDuplicates(AddComment(e, comment).comments)
    ensures NoDuplicates(RemoveSitemap(e, url).sitemaps) && url !in RemoveSitemap(e, url).sitemaps
    ensures NoDuplicates(RemoveComment(e, comment).comments) && comment !in RemoveComment(e, comment).comments
  {
    AddUniqueKeepsDistinct(e.sitemaps, url);
    AddUniqueKeepsDistinct(e.comments, comment);
    RemoveFirstKeepsDistinct(e.sitemaps, url);
    RemoveFirstKeepsDistinct(e.comments, comment);
  }

  // ---------------------------------------------------------------------
  // Display name

  const InactiveSuffix: string := " (未激活)"

  /** `__toString`: the name, with the inactive marker when the entry is switched off; `None` before a name is set. */
  function ToString(e: EntryEntity): (s: Option<string>)
    ensures e.name.None? <==> s.None?
    ensures e.name.Some? && e.active ==> s == e.name
    ensures e.name.Some? && !e.active ==>
              s.Some? && |s.value| == |e.name.value| + |InactiveSuffix|
              && s.value[..|e.name.value|] == e.name.value && s.value[|e.name.value|..] == InactiveSuffix
  {
    match e.name
    case None => None
    case Some(n) => Some(if e.active then n else n + InactiveSuffix)
  }

  /** Switching an entry off and on again gives back the plain name. */
  lemma ToggleDisplay(e: EntryEntity, name: string)
    ensures ToString(SetActive(SetName(e, name), true)) == Some(name)
    ensures ToString(SetActive(SetName(e, name), false)) == Some(name + InactiveSuffix)
    ensures ToString(SetActive(SetActive(SetName(e, name), false), true)) == Some(name)
  {
  }
}
