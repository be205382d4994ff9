/**
 * `RobotsTxtEntry` as a value: rules, sitemap URLs and comments. Every
 * "with" operation and `merge` return a new entry; nothing is deduplicated.
 */
module Entries {
  import opened Rules

  datatype Entry = Entry(rules: seq<Rule>, sitemaps: seq<string>, comments: seq<string>)

  /** The constructor, with its defaults: three empty lists. */
  function NewEntry(rules: seq<Rule> := [], sitemaps: seq<string> := [], comments: seq<string> := []): (e: Entry)
    ensures e.rules == rules && e.sitemaps == sitemaps && e.comments == comments
  {
    Entry(rules, sitemaps, comments)
  }

  const EmptyEntry: Entry := Entry([], [], [])

  predicate HasNoContent(e: Entry)
  {
    |e.rules| == 0 && |e.sitemaps| == 0 && |e.comments| == 0
  }

  function WithRule(e: Entry, r: Rule): (e': Entry)
    ensures |e'.rules| == |e.rules| + 1 && e'.rules[..|e.rules|] == e.rules && e'.rules[|e.rules|] == r
    ensures e'.sitemaps == e.sitemaps && e'.comments == e.comments
  {
    Entry(e.rules + [r], e.sitemaps, e.comments)
  }

  function WithRules(e: Entry, rs: seq<Rule>): (e': Entry)
    ensures |e'.rules| == |e.rules| + |rs|
    ensures e'.rules[..|e.rules|] == e.rules && e'.rules[|e.rules|..] == rs
    ensures e'.sitemaps == e.sitemaps && e'.comments == e.comments
  {
    Entry(e.rules + rs, e.sitemaps, e.comments)
  }

  function WithSitemap(e: Entry, url: string): (e': Entry)
    ensures |e'.sitemaps| == |e.sitemaps| + 1 && e'.sitemaps[..|e.sitemaps|] == e.sitemaps
    ensures e'.sitemaps[|e.sitemaps|] == url
    ensures e'.rules == e.rules && e'.comments == e.comments
  {
    Entry(e.rules, e.sitemaps + [url], e.comments)
  }

  function WithSitemaps(e: Entry, urls: seq<string>): (e': Entry)
    ensures |e'.sitemaps| == |e.sitemaps| + |urls|
    ensures e'.sitemaps[..|e.sitemaps|] == e.sitemaps && e'.sitemaps[|e.sitemaps|..] == urls
    ensures e'.rules == e.rules && e'.comments == e.comments
  {
    Entry(e.rules, e.sitemaps + urls, e.comments)
  }

  function WithComment(e: Entry, c: string): (e': Entry)
    ensures |e'.comments| == |e.comments| + 1 && e'.comments[..|e.comments|] == e.comments
    ensures e'.comments[|e.comments|] == c
    ensures e'.rules == e.rules && e'.sitemaps == e.sitemaps
  {
    Entry(e.rules, e.sitemaps, e.comments + [c])
  }

  /** Field-wise concatenation: `a`'s items first, then `b`'s, duplicates kept. */
  function Merge(a: Entry, b: Entry): (m: Entry)
    ensures |m.rules| == |a.rules| + |b.rules|
    ensures m.rules[..|a.rules|] == a.rules && m.rules[|a.rules|..] == b.rules
    ensures |m.sitemaps| == |a.sitemaps| + |b.sitemaps|
    ensures m.sitemaps[..|a.sitemaps|] == a.sitemaps && m.sitemaps[|a.sitemaps|..] == b.sitemaps
    ensures |m.comments| == |a.comments| + |b.comments|
    ensures m.comments[..|a.comments|] == a.comments && m.comments[|a.comments|..] == b.comments
  {
    Entry(a.rules + b.rules, a.sitemaps + b.sitemaps, a.comments + b.comments)
  }

  /** The empty entry is a two-sided identity of merge, and merge is associative. */
  lemma MergeMonoid(a: Entry, b: Entry, c: Entry)
    ensures Merge(EmptyEntry, a) == a && Merge(a, EmptyEntry) == a
    ensures Merge(Merge(a, b), c) == Merge(a, Merge(b, c))
  {
    assert [] + a.rules == a.rules && a.rules + [] == a.rules;
    assert [] + a.sitemaps == a.sitemaps && a.sitemaps + [] == a.sitemaps;
    assert [] + a.comments == a.comments && a.comments + [] == a.comments;
  }

  /** Merging an entry with itself doubles every list (no deduplication). */
  lemma MergeKeepsDuplicates(a: Entry)
    ensures |Merge(a, a).rules| == 2 * |a.rules|
    ensures |Merge(a, a).sitemaps| == 2 * |a.sitemaps|
    ensures |Merge(a, a).comments| == 2 * |a.comments|
  {
  }

  /** Each "with" operation is a merge with an entry holding only the added items. */
  lemma WithIsMerge(e: Entry, r: Rule, rs: seq<Rule>, url: string, urls: seq<string>, c: string)
    ensures WithRule(e, r) == Merge(e, Entry([r], [], []))
    ensures WithRules(e, rs) == Merge(e, Entry(rs, [], []))
    ensures WithSitemap(e, url) == Merge(e, Entry([], [url], []))
    ensures WithSitemaps(e, urls) == Merge(e, Entry([], urls, []))
    ensures WithComment(e, c) == Merge(e, Entry([], [], [c]))
  {
    assert e.rules + [] == e.rules;
    assert e.sitemaps + [] == e.sitemaps;
    assert e.comments + [] == e.comments;
  }
}
