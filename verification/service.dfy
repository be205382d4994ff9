/**
 * `RobotsTxtService`: keeps the providers that support the current
 * environment, orders them by priority (highest first, ties in registration
 * order), merges their entries in that order into one entry and renders it.
 *
 * A provider is modelled by the three answers it gives — its entry, its
 * priority and whether it supports the environment — taken as fixed values.
 */
module Service {
  import opened Text
  import opened StableSort
  import opened Entries
  import Directives
  import Rules
  import Grouping
  import Rendering

  datatype Provider = Provider(entry: Entry, priority: int, supported: bool)

  function ProviderPriority(p: Provider): int
  {
    p.priority
  }

  function RuleCount(p: Provider): int { |p.entry.rules| }
  function SitemapCount(p: Provider): int { |p.entry.sitemaps| }
  function CommentCount(p: Provider): int { |p.entry.comments| }
  function ItemCount(p: Provider): int { RuleCount(p) + SitemapCount(p) + CommentCount(p) }

  /** `getSupportedProviders`: the providers whose `supports()` is true, in registration order. */
  function SupportedProviders(ps: seq<Provider>): (r: seq<Provider>)
    ensures |r| <= |ps|
    ensures forall p :: p in r <==> p in ps && p.supported
  {
    if |ps| == 0 then []
    else (if ps[0].supported then [ps[0]] else []) + SupportedProviders(ps[1..])
  }

  /**
   * `sortProvidersByPriority` / `sortProvidersByPriorityValue`: a stable
   * sort, higher priority first; providers of equal priority keep their order.
   */
  function SortProviders(ps: seq<Provider>): (sorted: seq<Provider>)
    ensures multiset(sorted) == multiset(ps)
    ensures SortedDesc(sorted, ProviderPriority)
    ensures forall k :: WithKey(sorted, ProviderPriority, k) == WithKey(ps, ProviderPriority, k)
  {
    if |ps| == 0 then []
    else
      SortSpec(ps, ProviderPriority);
      SortDesc(ps, ProviderPriority)
  }

  function EntriesOf(ps: seq<Provider>): (es: seq<Entry>)
    ensures |es| == |ps|
    ensures forall i :: 0 <= i < |ps| ==> es[i] == ps[i].entry
  {
    seq(|ps|, i requires 0 <= i < |ps| => ps[i].entry)
  }

  /** The collecting loop: merge each entry into the running result, starting from the empty entry. */
  function MergeAll(es: seq<Entry>): Entry
  {
    if |es| == 0 then EmptyEntry else Merge(MergeAll(es[..|es| - 1]), es[|es| - 1])
  }

  /** `collectEntries`. */
  function CollectEntries(ps: seq<Provider>): Entry
  {
    MergeAll(EntriesOf(SortProviders(SupportedProviders(ps))))
  }

  /** `generate`: the collected entry rendered by `RobotsTxtEntry::toString`, separators as written. */
  function Generate(ps: seq<Provider>): string
  {
    Rendering.ToStringAsWritten(CollectEntries(ps))
  }

  /** `generate` with the corrected renderer: one empty line between neighbouring sections. */
  function GenerateCorrected(ps: seq<Provider>): string
  {
    Rendering.ToString(CollectEntries(ps))
  }

  /** `isEmpty`: the text `generate` returns is blank once trimmed. */
  function IsEmpty(ps: seq<Provider>): bool
  {
    Trim(Generate(ps)) == ""
  }

  /** `getProviders`: every registered provider, supported or not, in registration order. */
  function GetProviders(ps: seq<Provider>): (r: seq<Provider>)
    ensures |r| == |ps| && forall i :: 0 <= i < |ps| ==> r[i] == ps[i]
  {
    ps
  }

  // ---------------------------------------------------------------------
  // Reference description of the merged entry

  /** Concatenation of a list of lists, in order. */
  function Flatten<T>(xss: seq<seq<T>>): seq<T>
  {
    if |xss| == 0 then [] else xss[0] + Flatten(xss[1..])
  }

  function RulesOf(es: seq<Entry>): seq<seq<Rules.Rule>>
  {
    seq(|es|, i requires 0 <= i < |es| => es[i].rules)
  }

  function SitemapsOf(es: seq<Entry>): seq<seq<string>>
  {
    seq(|es|, i requires 0 <= i < |es| => es[i].sitemaps)
  }

  function CommentsOf(es: seq<Entry>): seq<seq<string>>
  {
    seq(|es|, i requires 0 <= i < |es| => es[i].comments)
  }

  lemma {:induction false} FlattenSnoc<T>(xss: seq<seq<T>>, ys: seq<T>)
    ensures Flatten(xss + [ys]) == Flatten(xss) + ys
  {
    if |xss| == 0 {
      assert xss + [ys] == [ys];
      assert Flatten([ys]) == ys + Flatten([ys][1..]);
    } else {
      assert (xss + [ys])[1..] == xss[1..] + [ys];
      FlattenSnoc(xss[1..], ys);
    }
  }

  /**
   * The merged entry lists, field by field, all items of the first entry,
   * then all of the second, and so on: nothing is dropped, reordered or
   * deduplicated.
   */
  lemma {:induction false} MergeAllIsFlatten(es: seq<Entry>)
    ensures MergeAll(es) == Entry(Flatten(RulesOf(es)), Flatten(SitemapsOf(es)), Flatten(CommentsOf(es)))
  {
    if |es| > 0 {
      var init := es[..|es| - 1];
      var last := es[|es| - 1];
      MergeAllIsFlatten(init);
      assert RulesOf(es) == RulesOf(init) + [last.rules];
      assert SitemapsOf(es) == SitemapsOf(init) + [last.sitemaps];
      assert CommentsOf(es) == CommentsOf(init) + [last.comments];
      FlattenSnoc(RulesOf(init), last.rules);
      FlattenSnoc(SitemapsOf(init), last.sitemaps);
      FlattenSnoc(CommentsOf(init), last.comments);
    }
  }

  lemma {:induction false} FlattenLength<T>(xss: seq<seq<T>>, ps: seq<Provider>, count: Provider -> int)
    requires |xss| == |ps| && forall i :: 0 <= i < |ps| ==> |xss[i]| == count(ps[i])
    ensures |Flatten(xss)| == SumBy(ps, count)
  {
    if |ps| > 0 {
      FlattenLength(xss[1..], ps[1..], count);
    }
  }

  // ---------------------------------------------------------------------
  // Properties of collectEntries

  /** The collected entry is the field-wise concatenation over the supported providers, highest priority first. */
  lemma CollectedInPriorityOrder(ps: seq<Provider>)
    ensures var sorted := SortProviders(SupportedProviders(ps));
      && SortedDesc(sorted, ProviderPriority)
      && multiset(sorted) == multiset(SupportedProviders(ps))
      && CollectEntries(ps).rules == Flatten(RulesOf(EntriesOf(sorted)))
      && CollectEntries(ps).sitemaps == Flatten(SitemapsOf(EntriesOf(sorted)))
      && CollectEntries(ps).comments == Flatten(CommentsOf(EntriesOf(sorted)))
  {
    MergeAllIsFlatten(EntriesOf(SortProviders(SupportedProviders(ps))));
  }

  /** Item counts: every supported provider contributes all of its items, no unsupported one contributes any. */
  lemma CollectedCounts(ps: seq<Provider>)
    ensures var sup := SupportedProviders(ps);
      && |CollectEntries(ps).rules| == SumBy(sup, RuleCount)
      && |CollectEntries(ps).sitemaps| == SumBy(sup, SitemapCount)
      && |CollectEntries(ps).comments| == SumBy(sup, CommentCount)
  {
    var sup := SupportedProviders(ps);
    var sorted := SortProviders(sup);
    var es := EntriesOf(sorted);
    var m := CollectEntries(ps);
    assert m.rules == Flatten(RulesOf(es)) && m.sitemaps == Flatten(SitemapsOf(es))
        && m.comments == Flatten(CommentsOf(es)) by {
      MergeAllIsFlatten(es);
    }
    assert |m.rules| == SumBy(sup, RuleCount) by {
      FlattenLength(RulesOf(es), sorted, RuleCount);
      SortedSum(sup, RuleCount);
    }
    assert |m.sitemaps| == SumBy(sup, SitemapCount) by {
      FlattenLength(SitemapsOf(es), sorted, SitemapCount);
      SortedSum(sup, SitemapCount);
    }
    assert |m.comments| == SumBy(sup, CommentCount) by {
      FlattenLength(CommentsOf(es), sorted, CommentCount);
      SortedSum(sup, CommentCount);
    }
  }

  /** Sorting the providers does not change a sum over them. */
  lemma SortedSum(ps: seq<Provider>, f: Provider -> int)
    ensures SumBy(SortProviders(ps), f) == SumBy(ps, f)
  {
    if |ps| > 0 {
      SortSum(ps, ProviderPriority, f);
    }
  }

  lemma {:induction false} SupportedIdempotent(ps: seq<Provider>)
    ensures SupportedProviders(SupportedProviders(ps)) == SupportedProviders(ps)
  {
    if |ps| > 0 {
      SupportedIdempotent(ps[1..]);
      var head: seq<Provider> := if ps[0].supported then [ps[0]] else [];
      SupportedAppend(head, SupportedProviders(ps[1..]));
    }
  }

  lemma {:induction false} SupportedAppend(a: seq<Provider>, b: seq<Provider>)
    ensures SupportedProviders(a + b) == SupportedProviders(a) + SupportedProviders(b)
  {
    if |a| == 0 {
      assert a + b == b;
    } else {
      assert (a + b)[1..] == a[1..] + b;
      SupportedAppend(a[1..], b);
    }
  }

  /**
   * `getSupportedProviders` is the filter by `supports()`: nothing from
   * nothing, one provider kept exactly when it is supported, and
   * concatenations filtered piecewise. Together these fix its result,
   * order and repetitions included.
   */
  lemma SupportedIsFilter(a: seq<Provider>, b: seq<Provider>, p: Provider)
    ensures SupportedProviders([]) == []
    ensures SupportedProviders([p]) == (if p.supported then [p] else [])
    ensures SupportedProviders(a + b) == SupportedProviders(a) + SupportedProviders(b)
  {
    assert [p][1..] == [];
    SupportedAppend(a, b);
  }

  /** Every supported provider is kept as often as it is registered; the others not at all. */
  lemma {:induction false} SupportedCounts(ps: seq<Provider>, q: Provider)
    ensures multiset(SupportedProviders(ps))[q] == if q.supported then multiset(ps)[q] else 0
  {
    if |ps| > 0 {
      SupportedCounts(ps[1..], q);
      assert ps == [ps[0]] + ps[1..];
    }
  }

  lemma SupportedSkips(before: seq<Provider>, p: Provider, after: seq<Provider>)
    requires !p.supported
    ensures SupportedProviders(before + [p] + after) == SupportedProviders(before + after)
  {
    assert SupportedProviders([p]) == [] by {
      assert [p][1..] == [];
    }
    assert SupportedProviders(before + [p]) == SupportedProviders(before) by {
      SupportedAppend(before, [p]);
    }
    assert SupportedProviders(before + [p] + after) == SupportedProviders(before) + SupportedProviders(after) by {
      SupportedAppend(before + [p], after);
    }
    SupportedAppend(before, after);
  }

  /** Registering a provider that does not support the environment changes nothing, wherever it is registered. */
  lemma UnsupportedIgnored(before: seq<Provider>, p: Provider, after: seq<Provider>)
    requires !p.supported
    ensures CollectEntries(before + [p] + after) == CollectEntries(before + after)
    ensures Generate(before + [p] + after) == Generate(before + after)
  {
    SupportedSkips(before, p, after);
  }

  /** Only supported providers matter: collecting from the supported ones alone gives the same entry. */
  lemma OnlySupportedMatter(ps: seq<Provider>)
    ensures CollectEntries(SupportedProviders(ps)) == CollectEntries(ps)
  {
    SupportedIdempotent(ps);
  }

  lemma {:induction false} NoneSupported(ps: seq<Provider>)
    requires forall p :: p in ps ==> !p.supported
    ensures SupportedProviders(ps) == []
  {
    if |ps| > 0 {
      assert ps[0] in ps;
      NoneSupported(ps[1..]);
    }
  }

  /** With no (supported) provider the result is the empty entry, the empty text, and it is empty. */
  lemma NoProviders(ps: seq<Provider>)
    requires forall p :: p in ps ==> !p.supported
    ensures CollectEntries(ps) == EmptyEntry
    ensures Generate(ps) == "" && GenerateCorrected(ps) == ""
    ensures IsEmpty(ps)
  {
    NoneSupported(ps);
    Rendering.ToStringAsWrittenEmptyIff(EmptyEntry);
    Rendering.ToStringEmptyIff(EmptyEntry);
  }

  // ---------------------------------------------------------------------
  // Properties of generate and isEmpty

  /**
   * The service is empty exactly when the collected entry has no rule, no
   * sitemap and no comment: a whitespace-only comment still renders as a
   * `#` line, which `trim()` does not remove. The corrected text is empty
   * for the same providers.
   */
  lemma IsEmptyIff(ps: seq<Provider>)
    ensures IsEmpty(ps) <==> HasNoContent(CollectEntries(ps))
    ensures IsEmpty(ps) <==> Generate(ps) == ""
    ensures IsEmpty(ps) <==> GenerateCorrected(ps) == ""
  {
    var e := CollectEntries(ps);
    var s := Generate(ps);
    Rendering.ToStringAsWrittenEmptyIff(e);
    Rendering.ToStringEmptyIff(e);
    TrimEmptyIff(s);
    if !HasNoContent(e) {
      assert !IsTrimmed(s[0]);
    }
  }

  /**
   * `generate` and its corrected form differ only when the collected entry
   * has comments and sitemaps but no rules; emptiness is the same for both.
   */
  lemma GenerateAgrees(ps: seq<Provider>)
    ensures var e := CollectEntries(ps);
      !(|e.comments| > 0 && |e.rules| == 0 && |e.sitemaps| > 0) ==> Generate(ps) == GenerateCorrected(ps)
    ensures var e := CollectEntries(ps);
      |e.comments| > 0 && |e.rules| == 0 && |e.sitemaps| > 0 ==> Generate(ps) != GenerateCorrected(ps)
    ensures Generate(ps) == "" <==> GenerateCorrected(ps) == ""
  {
    var e := CollectEntries(ps);
    if !(|e.comments| > 0 && |e.rules| == 0 && |e.sitemaps| > 0) {
      Rendering.AsWrittenAgrees(e);
    } else {
      Rendering.AsWrittenExtraNewline(e);
    }
    Rendering.ToStringAsWrittenEmptyIff(e);
    Rendering.ToStringEmptyIff(e);
  }

  /** The service is empty exactly when every supported provider's entry is empty. */
  lemma IsEmptyIffProvidersEmpty(ps: seq<Provider>)
    ensures IsEmpty(ps) <==> forall p :: p in ps && p.supported ==> HasNoContent(p.entry)
  {
    IsEmptyIff(ps);
    CollectedCounts(ps);
    var sup := SupportedProviders(ps);
    SumZeroIff(sup, ItemCount);
    SumAdd(sup);
  }

  lemma {:induction false} SumAdd(ps: seq<Provider>)
    ensures SumBy(ps, ItemCount) == SumBy(ps, RuleCount) + SumBy(ps, SitemapCount) + SumBy(ps, CommentCount)
  {
    if |ps| > 0 {
      SumAdd(ps[1..]);
    }
  }

  lemma {:induction false} SumZeroIff(ps: seq<Provider>, f: Provider -> int)
    requires forall p :: f(p) >= 0
    ensures SumBy(ps, f) >= 0
    ensures SumBy(ps, f) == 0 <==> forall p :: p in ps ==> f(p) == 0
  {
    if |ps| > 0 {
      SumZeroIff(ps[1..], f);
    }
  }

  // ---------------------------------------------------------------------
  // Examples of the documented behaviour of `collectEntries` and `generate`

  /** Three supported providers of priorities 10, 100 and 50 are merged 100, 50, 10. */
  lemma PrioritySortingExample()
    ensures var low := Provider(Entry([], [], ["Low priority"]), 10, true);
      var high := Provider(Entry([], [], ["High priority"]), 100, true);
      var medium := Provider(Entry([], [], ["Medium priority"]), 50, true);
      CollectEntries([low, high, medium]).comments == ["High priority", "Medium priority", "Low priority"]
  {
    CommentsByPriority("Low priority", "High priority", "Medium priority");
  }

  /** Three providers of priorities 10, 100 and 50 with one comment each: the comments come out by priority. */
  lemma CommentsByPriority(l: string, h: string, m: string)
    ensures var low := Provider(Entry([], [], [l]), 10, true);
      var high := Provider(Entry([], [], [h]), 100, true);
      var medium := Provider(Entry([], [], [m]), 50, true);
      CollectEntries([low, high, medium]).comments == [h, m, l]
  {
    var low := Provider(Entry([], [], [l]), 10, true);
    var high := Provider(Entry([], [], [h]), 100, true);
    var medium := Provider(Entry([], [], [m]), 50, true);
    PriorityOrder3(low, high, medium);
  }

  lemma PriorityOrder3(low: Provider, high: Provider, medium: Provider)
    requires low.supported && high.supported && medium.supported
    requires low.priority == 10 && high.priority == 100 && medium.priority == 50
    ensures CollectEntries([low, high, medium]).comments
         == high.entry.comments + medium.entry.comments + low.entry.comments
  {
    Collect3(low, high, medium);
    MergeAll3(high.entry, medium.entry, low.entry);
  }

  lemma Collect3(low: Provider, high: Provider, medium: Provider)
    requires low.supported && high.supported && medium.supported
    requires low.priority == 10 && high.priority == 100 && medium.priority == 50
    ensures CollectEntries([low, high, medium]) == MergeAll([high.entry, medium.entry, low.entry])
  {
    var ps := [low, high, medium];
    assert SupportedProviders(ps) == ps by {
      AllSupported3(low, high, medium);
    }
    assert SortProviders(ps) == [high, medium, low] by {
      SortExample(low, high, medium);
    }
    EntriesOf3(high, medium, low);
  }

  lemma EntriesOf3(a: Provider, b: Provider, c: Provider)
    ensures EntriesOf([a, b, c]) == [a.entry, b.entry, c.entry]
  {
    var es := EntriesOf([a, b, c]);
    assert es[0] == a.entry && es[1] == b.entry && es[2] == c.entry;
  }

  lemma AllSupported3(a: Provider, b: Provider, c: Provider)
    requires a.supported && b.supported && c.supported
    ensures SupportedProviders([a, b, c]) == [a, b, c]
  {
    assert [a, b, c][1..] == [b, c];
    assert [b, c][1..] == [c];
    assert [c][1..] == [];
  }

  lemma MergeAll3(a: Entry, b: Entry, c: Entry)
    ensures MergeAll([a, b, c]).comments == a.comments + b.comments + c.comments
  {
    assert [a, b, c][..2] == [a, b];
    assert [a, b][..1] == [a];
    assert [a][..0] == [];
    assert MergeAll([a]).comments == [] + a.comments == a.comments;
  }

  lemma SortExample(low: Provider, high: Provider, medium: Provider)
    requires low.priority == 10 && high.priority == 100 && medium.priority == 50
    ensures SortProviders([low, high, medium]) == [high, medium, low]
  {
    var s, two := [low, high, medium], [high, medium];
    assert SortDesc([medium], ProviderPriority) == [medium] by {
      assert [medium][1..] == [];
    }
    assert SortDesc(two, ProviderPriority) == two by {
      assert two[1..] == [medium];
    }
    assert Insert(low, [medium], ProviderPriority) == [medium, low] by {
      assert [medium][1..] == [];
    }
    assert Insert(low, two, ProviderPriority) == [high, medium, low] by {
      assert two[1..] == [medium];
    }
    assert s[1..] == two;
  }

  /** With two supported providers, the higher-priority provider's items come first in every list. */
  lemma TwoProviders(p1: Provider, p2: Provider)
    requires p1.supported && p2.supported && p1.priority < p2.priority
    ensures CollectEntries([p1, p2]) == Merge(p2.entry, p1.entry)
  {
    assert [p1, p2][1..] == [p2];
    assert [p2][1..] == [];
    assert SupportedProviders([p1, p2]) == [p1, p2];
    assert SortDesc([p2], ProviderPriority) == [p2];
    assert SortProviders([p1, p2]) == [p2] + Insert(p1, [], ProviderPriority) == [p2, p1];
    var es := EntriesOf([p2, p1]);
    assert es == [p2.entry, p1.entry];
    assert es[..1] == [p2.entry];
    assert [p2.entry][..0] == [];
    assert MergeAll([p2.entry]) == Merge(EmptyEntry, p2.entry) == p2.entry by {
      MergeMonoid(p2.entry, p2.entry, p2.entry);
    }
  }

  /**
   * Two providers of priorities 50 and 100, each with one rule of the
   * default priority 0: the higher-priority provider's comment and rule come
   * first, and the two equal-priority rules keep that merged order.
   */
  lemma GenerationExample()
    ensures var p1 := Provider(Entry([Rules.ForAllAgents([Directives.Disallow("/admin/")])], [], ["Provider 1"]), 50, true);
      var p2 := Provider(Entry([Rules.ForAgent("Googlebot", [Directives.Allow("/api/")])],
                               ["https://example.com/sitemap.xml"], ["Provider 2"]), 100, true);
      && Rendering.Lines(CollectEntries([p1, p2]))
      == ["# Provider 2", "# Provider 1", "",
          "User-agent: Googlebot", "Allow: /api/", "",
          "User-agent: *", "Disallow: /admin/", "",
          "Sitemap: https://example.com/sitemap.xml"]
      && Generate([p1, p2]) == GenerateCorrected([p1, p2])
  {
    var rStar := Rules.ForAllAgents([Directives.Disallow("/admin/")]);
    var rG := Rules.ForAgent("Googlebot", [Directives.Allow("/api/")]);
    var p1 := Provider(Entry([rStar], [], ["Provider 1"]), 50, true);
    var p2 := Provider(Entry([rG], ["https://example.com/sitemap.xml"], ["Provider 2"]), 100, true);
    TwoProviderLines(p1, p2);
    ExampleStrings();
    assert Generate([p1, p2]) == GenerateCorrected([p1, p2]) by {
      TwoProviders(p1, p2);
      assert |CollectEntries([p1, p2]).rules| == 2;
      GenerateAgrees([p1, p2]);
    }
  }

  // ---------------------------------------------------------------------
  // Proof helpers: the literal lines of the example above

  lemma ExampleStrings()
    ensures "# " + "Provider 2" == "# Provider 2"
    ensures "# " + "Provider 1" == "# Provider 1"
    ensures "Sitemap: " + "https://example.com/sitemap.xml" == "Sitemap: https://example.com/sitemap.xml"
    ensures Directives.ToString(Directives.Allow("/api/")) == "Allow: /api/"
    ensures Directives.ToString(Directives.Disallow("/admin/")) == "Disallow: /admin/"
    ensures Rules.Header("Googlebot") == "User-agent: Googlebot"
    ensures Rules.Header("*") == "User-agent: *"
  {
    ProviderComments();
    Rendering.ExampleSitemap();
    AllowApi();
    Rendering.DisallowAdmin();
    GooglebotHeader();
    Rendering.StarHeader();
  }

  lemma ProviderComments()
    ensures "# " + "Provider 2" == "# Provider 2"
    ensures "# " + "Provider 1" == "# Provider 1"
  {
  }

  lemma AllowApi()
    ensures Directives.ToString(Directives.Allow("/api/")) == "Allow: /api/"
  {
    assert Directives.ToString(Directives.Allow("/api/")) == "Allow" + ": " + "/api/";
  }

  lemma GooglebotHeader()
    ensures Rules.Header("Googlebot") == "User-agent: Googlebot"
  {
  }

  /** Two providers with one comment and one rule each, the higher-priority one also with one sitemap. */
  lemma TwoProviderLines(p1: Provider, p2: Provider)
    requires p1.supported && p2.supported && p1.priority < p2.priority
    requires |p1.entry.rules| == 1 && |p2.entry.rules| == 1
    requires |p1.entry.comments| == 1 && |p2.entry.comments| == 1
    requires |p1.entry.sitemaps| == 0 && |p2.entry.sitemaps| == 1
    requires p1.entry.rules[0].priority == p2.entry.rules[0].priority
    requires p1.entry.rules[0].userAgent != p2.entry.rules[0].userAgent
    requires |p1.entry.rules[0].directives| == 1 && |p2.entry.rules[0].directives| == 1
    ensures var r1, r2 := p1.entry.rules[0], p2.entry.rules[0];
      Rendering.Lines(CollectEntries([p1, p2]))
      == ["# " + p2.entry.comments[0], "# " + p1.entry.comments[0], "",
          Rules.Header(r2.userAgent), Directives.ToString(r2.directives[0]), "",
          Rules.Header(r1.userAgent), Directives.ToString(r1.directives[0]), "",
          "Sitemap: " + p2.entry.sitemaps[0]]
  {
    var e := Merge(p2.entry, p1.entry);
    assert CollectEntries([p1, p2]) == e by {
      TwoProviders(p1, p2);
    }
    assert e.rules == [p2.entry.rules[0], p1.entry.rules[0]];
    assert e.comments == [p2.entry.comments[0], p1.entry.comments[0]];
    assert e.sitemaps == [p2.entry.sitemaps[0]];
    TwoGroupLayout(e);
  }

  /** The layout of an entry with two comments, two single-directive groups and one sitemap. */
  lemma TwoGroupLayout(e: Entry)
    requires |e.comments| == 2 && |e.sitemaps| == 1 && |e.rules| == 2
    requires e.rules[0].priority == e.rules[1].priority && e.rules[0].userAgent != e.rules[1].userAgent
    requires |e.rules[0].directives| == 1 && |e.rules[1].directives| == 1
    ensures Rendering.Lines(e)
         == ["# " + e.comments[0], "# " + e.comments[1], "",
             Rules.Header(e.rules[0].userAgent), Directives.ToString(e.rules[0].directives[0]), "",
             Rules.Header(e.rules[1].userAgent), Directives.ToString(e.rules[1].directives[0]), "",
             "Sitemap: " + e.sitemaps[0]]
  {
    var a, b := e.rules[0], e.rules[1];
    assert Rendering.Lines(e)
        == Rendering.CommentBlock(e.comments) + [""] + Rendering.RuleBlock(e.rules) + [""] + Rendering.SitemapBlock(e.sitemaps) by {
      Rendering.LinesLayout(e);
    }
    assert Rendering.RuleBlock(e.rules)
        == [Rules.Header(a.userAgent), Directives.ToString(a.directives[0]), "",
            Rules.Header(b.userAgent), Directives.ToString(b.directives[0])] by {
      assert e.rules == [a, b];
      TwoRuleBlock(a, b);
    }
    assert Rendering.CommentBlock(e.comments) == ["# " + e.comments[0], "# " + e.comments[1]];
    assert Rendering.SitemapBlock(e.sitemaps) == ["Sitemap: " + e.sitemaps[0]];
  }

  /** Two rules of equal priority and different agents render as two groups in their given order. */
  lemma TwoRuleBlock(a: Rules.Rule, b: Rules.Rule)
    requires a.priority == b.priority && a.userAgent != b.userAgent
    requires |a.directives| == 1 && |b.directives| == 1
    ensures Rendering.RuleBlock([a, b])
         == [Rules.Header(a.userAgent), Directives.ToString(a.directives[0]), "",
             Rules.Header(b.userAgent), Directives.ToString(b.directives[0])]
  {
    var ba := Rules.Block(a.userAgent, a.directives);
    var bb := Rules.Block(b.userAgent, b.directives);
    assert Rendering.RuleBlock([a, b]) == JoinBlocks([ba, bb]) by {
      var ga := Grouping.Group(a.userAgent, a.directives);
      var gb := Grouping.Group(b.userAgent, b.directives);
      assert Rendering.RuleGroups([a, b]) == [ga, gb] by {
        TwoRuleGroups(a, b);
      }
      assert Rendering.GroupBlocks([ga, gb]) == [ba, bb];
    }
    assert JoinBlocks([ba, bb]) == ba + [""] + bb by {
      assert [ba, bb][1..] == [bb];
    }
    assert ba == [Rules.Header(a.userAgent), Directives.ToString(a.directives[0])] by {
      assert ba[1..] == Directives.ToLines(a.directives);
    }
    assert bb == [Rules.Header(b.userAgent), Directives.ToString(b.directives[0])] by {
      assert bb[1..] == Directives.ToLines(b.directives);
    }
  }

  lemma TwoRuleGroups(a: Rules.Rule, b: Rules.Rule)
    requires a.priority == b.priority && a.userAgent != b.userAgent
    ensures Rendering.RuleGroups([a, b]) == [Grouping.Group(a.userAgent, a.directives), Grouping.Group(b.userAgent, b.directives)]
  {
    var ga := Grouping.Group(a.userAgent, a.directives);
    assert Rendering.SortRules([a, b]) == [a, b] by {
      assert [a, b][1..] == [b];
      assert SortDesc([b], Rendering.RulePriority) == [b];
      assert Insert(a, [b], Rendering.RulePriority) == [a, b];
    }
    assert [a, b][..1] == [a];
    assert [a][..0] == [];
    assert Grouping.GroupByAgent([a]) == [ga];
    assert Grouping.AddRule([ga], b) == [ga] + Grouping.AddRule([], b);
  }
}
