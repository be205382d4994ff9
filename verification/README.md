# robots.txt bundle core, modelled in Dafny

This project models the part of the robots.txt bundle that builds the text of
a robots.txt file. It covers:

- **directives**: one `kind: value` line each, with factories for `Disallow`,
  `Allow`, `Crawl-delay` and `Sitemap`;
- **rules**: a user agent, its directives and a priority;
- **entries**: rules, sitemap URLs and comments, plus the rendering of a
  whole file;
- **the service**: it keeps the providers that support the environment,
  orders them by priority, merges their entries and renders the result;
- **the persisted entry entity**: its add and remove operations on the
  sitemap and comment lists, and its display name.

Every value is an immutable datatype and every operation is a pure function.

Modules, one per concept:

| file | module | models |
|---|---|---|
| option.dfy | `Options` | optional values |
| text.dfy | `Text` | `implode("\n")` and its inverse, `trim()`, joining blocks with empty lines |
| decimal.dfy | `Decimal` | PHP's `(string) $int` |
| stable_sort.dfy | `StableSort` | PHP 8's stable `usort` with a "higher key first" comparator |
| directive.dfy | `Directives` | `RobotsTxtDirective` |
| rule.dfy | `Rules` | `RobotsTxtRule` |
| grouping.dfy | `Grouping` | `RobotsTxtEntry::groupRulesByUserAgent` |
| entry.dfy | `Entries` | `RobotsTxtEntry`: the value and its `with*` and `merge` operations |
| render.dfy | `Rendering` | `RobotsTxtEntry::toString` and its line helpers |
| service.dfy | `Service` | `RobotsTxtService` |
| entry_entity.dfy | `EntryEntities` | `RobotsTxtEntryEntity` without its ORM parts |

Three things about the modelling:

- **Sorting.** The sort is an insertion sort. Three lemmas pin it down: it
  is a permutation, it is ordered highest key first, and it is stable (for
  every key, the elements with that key keep their input order).
  `StableSort.SortedStableUnique` proves that only one sequence has all
  three properties. So the model agrees with PHP's own sort on every input.
- **Grouping.** The loop that groups rules by user agent is modelled
  literally. It is proved equal to a declarative reference: one group per
  distinct agent, in first-appearance order, holding that agent's
  directives concatenated in rule order.
- **Rendering.** The renderer is modelled twice. `Rendering.ToStringAsWritten`
  follows the three line helpers of `RobotsTxtEntry` literally.
  `Rendering.ToString` is the corrected layout: the present sections are
  separated by exactly one empty line. The two differ in one case (see
  "## Findings"). `Service.Generate` and `Service.IsEmpty` model `generate`
  and `isEmpty` as written, on top of `Rendering.ToStringAsWritten`;
  `Service.GenerateCorrected` renders the same entry with the corrected
  layout, and `Service.GenerateAgrees` relates the two.

## Model

| member | source | states |
|---|---|---|
| Directives.Disallow | src/Model/RobotsTxtDirective.php:19-22 | the kind is "Disallow" and the value is the path verbatim, the empty path included |
| Directives.Allow | src/Model/RobotsTxtDirective.php:27-30 | the kind is "Allow" and the value is the path verbatim |
| Directives.CrawlDelay | src/Model/RobotsTxtDirective.php:35-38 | the kind is "Crawl-delay"; the value reads back as the given number of seconds and is canonical: a '-' exactly for negative numbers, then only digits, with no leading zero and no "-0" |
| Directives.CrawlDelayExamples | tests/Model/RobotsTxtDirectiveTest.php:94-110 | 0 seconds renders as "0" and 86400 seconds as "86400" |
| Directives.Sitemap | src/Model/RobotsTxtDirective.php:43-46 | the kind is "Sitemap" and the value is the URL verbatim |
| Directives.ToString | src/Model/RobotsTxtDirective.php:51-54 | the line is the kind, then ": ", then the value, all verbatim; its length is the kind's length plus 2 plus the value's length |
| Directives.ParseToString | src/Model/RobotsTxtDirective.php:51-54 | nothing is lost: for a kind without a colon, splitting the line at its first ": " gives back the same kind and value |
| Decimal.DecimalRoundTrip | src/Model/RobotsTxtDirective.php:37 | the `(string)` rendering of any integer, negative ones included, reads back to that integer |
| Decimal.DecimalCanonical | src/Model/RobotsTxtDirective.php:37 | the rendering has a '-' exactly for negative numbers, then at least one digit and nothing else; its first digit is '0' only when the whole rendering is "0" |
| Decimal.CanonicalRoundTrip | src/Model/RobotsTxtDirective.php:37 | every canonical string is the rendering of the integer it reads as, so no two canonical strings read as the same integer |
| Rules.NewRule | src/Model/RobotsTxtRule.php:15-20 | a rule keeps the agent, directives and priority it is given; by default it has no directives and priority 0 |
| Rules.ForAllAgents | src/Model/RobotsTxtRule.php:27-30 | the rule's agent is "*"; its directives and priority are the ones given (priority 0 by default) |
| Rules.ForAgent | src/Model/RobotsTxtRule.php:37-40 | the agent, directives and priority are the ones given |
| Rules.WithDirective | src/Model/RobotsTxtRule.php:45-52 | the result has one more directive, the given one, at the end; the earlier directives, the agent and the priority are unchanged |
| Rules.WithDirectives | src/Model/RobotsTxtRule.php:59-66 | the result's directives are the old ones followed by the given ones; the agent and the priority are unchanged |
| Rules.WithDirectivesIsRepeatedWithDirective | src/Model/RobotsTxtRule.php:45-66 | adding a list of directives at once equals adding them one at a time, in order |
| Rules.ToString | src/Model/RobotsTxtRule.php:71-84 | the text is empty exactly when the rule has no directives; otherwise it starts with "User-agent: " |
| Rules.RuleLines | tests/Model/RobotsTxtRuleTest.php:96-112 | with directives and no newline in any part, the text splits into exactly the header line followed by each directive's line, `|directives| + 1` lines in all |
| Entries.NewEntry | src/Model/RobotsTxtEntry.php:15-20 | an entry keeps the three lists it is given; each defaults to empty |
| Entries.WithRule | src/Model/RobotsTxtEntry.php:25-32 | the rule list gains the rule at its end, with the old rules kept as its prefix; sitemaps and comments are unchanged |
| Entries.WithRules | src/Model/RobotsTxtEntry.php:39-46 | the rule list becomes the old rules followed by the given ones; sitemaps and comments are unchanged |
| Entries.WithSitemap | src/Model/RobotsTxtEntry.php:51-58 | the sitemap list gains the URL at its end; rules and comments are unchanged |
| Entries.WithSitemaps | src/Model/RobotsTxtEntry.php:65-72 | the sitemap list becomes the old URLs followed by the given ones; rules and comments are unchanged |
| Entries.WithComment | src/Model/RobotsTxtEntry.php:77-84 | the comment list gains the comment at its end; rules and sitemaps are unchanged |
| Entries.Merge | src/Model/RobotsTxtEntry.php:89-96 | each list of the result is the first entry's list followed by the second entry's list |
| Entries.MergeMonoid | tests/Model/RobotsTxtEntry/RobotsTxtEntryMergeTest.php:85-129 | the empty entry is a left and right identity of merge, and merge is associative |
| Entries.MergeKeepsDuplicates | src/Model/RobotsTxtEntry.php:89-96 | merging an entry with itself doubles every list: nothing is deduplicated |
| Entries.WithIsMerge | src/Model/RobotsTxtEntry.php:25-96 | every `with*` operation equals a merge with an entry that holds only the added items |
| StableSort.SortSpec | src/Model/RobotsTxtEntry.php:159-160 | the sorted list is a permutation of the input, is ordered highest key first, and keeps the input order among equal keys |
| StableSort.SortedStableUnique | src/Service/RobotsTxtService.php:88-102 | two key-ordered lists that keep the same per-key order are equal, so any stable sort gives this model's result |
| StableSort.SortSum | src/Service/RobotsTxtService.php:88-102 | sorting does not change the total of any per-element measure |
| Rendering.SortRules | src/Model/RobotsTxtEntry.php:159-160 | the rules are permuted into priority order, highest first, and equal priorities keep their input order |
| Grouping.GroupByAgentIsReference | src/Model/RobotsTxtEntry.php:157-174 | the grouping loop gives one group per distinct agent, in first-appearance order, each holding its rules' directives concatenated in rule order |
| Grouping.AddRuleReference | src/Model/RobotsTxtEntry.php:163-170 | one pass of the loop body, applied to the reference grouping of the rules so far, gives the reference grouping of those rules plus the new one, whether its agent is new or already seen |
| Grouping.GroupingProperties | src/Model/RobotsTxtEntry.php:157-174 | the group agents are distinct and are exactly the rules' agents, ordered by first appearance; each group's directives are all directives for its agent; there are no groups exactly when there are no rules |
| Grouping.FirstAppearancesOrdered | src/Model/RobotsTxtEntry.php:162-171 | distinct agents are listed in the order of their first occurrence |
| Rendering.RuleBlockShape | src/Model/RobotsTxtEntry.php:132-152 | the rules section is empty exactly when there are no rules (a rule without directives still prints its header); it starts with the first group's header and never has two empty lines in a row |
| Rendering.LinesLayout | src/Model/RobotsTxtEntry.php:101-194 | the corrected text is: comment lines, one empty line if rules or sitemaps follow, the rule groups, one empty line if both rules and sitemaps exist, the sitemap lines |
| Rendering.LinesWellSeparated | src/Model/RobotsTxtEntry.php:101-194 | the corrected text has no empty line at either end and never two in a row |
| Rendering.AsWrittenAgrees | src/Model/RobotsTxtEntry.php:101-194 | the line helpers as written produce the corrected layout, and the same text, unless there are comments and sitemaps but no rules |
| Rendering.AsWrittenDoubleBlank | src/Model/RobotsTxtEntry.php:122-124 | with comments and sitemaps but no rules, `toString` as written puts two empty lines between the comments and the sitemaps |
| Rendering.AsWrittenExtraNewline | src/Model/RobotsTxtEntry.php:122-124 | in that case the text as written is exactly one character longer than the corrected text, so the two texts differ |
| Rendering.DoubleBlankExample | src/Model/RobotsTxtEntry.php:184-186 | one comment "c" and one sitemap "u" give "# c\n\n\nSitemap: u" as written and "# c\n\nSitemap: u" corrected |
| Rendering.ToStringEmptyIff | tests/Model/RobotsTxtEntryTest.php:36-42 | the text is empty exactly when the entry has no rule, sitemap or comment; otherwise it starts with '#', 'U' or 'S', which `trim()` does not strip |
| Rendering.ToStringAsWrittenEmptyIff | src/Model/RobotsTxtEntry.php:101-110 | the text of `toString` as written is empty exactly for an entry with no content; otherwise it starts with '#', 'U' or 'S', which `trim()` does not strip |
| Rendering.SplitToString | src/Model/RobotsTxtEntry.php:101-110 | for the corrected renderer: when no part holds a newline, splitting the text at newlines gives back exactly the corrected lines |
| Rendering.SplitToStringAsWritten | src/Model/RobotsTxtEntry.php:101-110 | for `toString` as written: when no part holds a newline, splitting the text at newlines gives back exactly the lines of the three helpers, the doubled empty line included |
| Rendering.SingleRuleEntry | src/Model/RobotsTxtEntry.php:143 | an entry with one rule renders, by `toString` as written and by the corrected renderer alike, as the rule's own text when the rule has directives, and as its bare header line when it has none |
| Rendering.BasicExample | tests/Model/RobotsTxtEntry/RobotsTxtEntryBasicTest.php:203-211 | one comment, one rule for all agents and one sitemap render as the six lines of the documented example, and `toString` as written gives the same text as the corrected renderer |
| Service.SupportedProviders | src/Service/RobotsTxtService.php:109-120 | a provider is kept exactly when it is registered and supports the environment |
| Service.SupportedIsFilter | src/Service/RobotsTxtService.php:109-120 | the supported providers of no providers are none; one provider is kept exactly when it is supported; a concatenation is filtered piece by piece, so registration order is kept |
| Service.SupportedCounts | src/Service/RobotsTxtService.php:113-117 | a supported provider is kept as many times as it is registered, an unsupported one not at all |
| Service.SortProviders | src/Service/RobotsTxtService.php:57-102 | providers are permuted into priority order, highest first, and equal priorities keep registration order |
| Service.MergeAllIsFlatten | src/Service/RobotsTxtService.php:41-46 | the merging loop lists, field by field, every item of every entry in entry order |
| Service.CollectedInPriorityOrder | src/Service/RobotsTxtService.php:36-49 | the collected entry concatenates the supported providers' lists in sorted provider order |
| Service.CollectedCounts | tests/Service/RobotsTxtService/RobotsTxtServiceCollectionTest.php:51-79 | each collected list is as long as the sum of that list's lengths over the supported providers |
| Service.UnsupportedIgnored | tests/Service/RobotsTxtService/RobotsTxtServiceCollectionTest.php:81-110 | registering an unsupported provider anywhere changes neither the collected entry nor the generated text |
| Service.OnlySupportedMatter | src/Service/RobotsTxtService.php:109-120 | collecting from the supported providers alone gives the same entry |
| Service.NoProviders | tests/Service/RobotsTxtService/RobotsTxtServiceGenerationTest.php:19-25 | with no supported provider the collected entry is empty, the text of `generate` (and the corrected text) is "" and the service is empty |
| Service.PrioritySortingExample | tests/Service/RobotsTxtService/RobotsTxtServiceCollectionTest.php:112-141 | providers of priority 10, 100 and 50 contribute their comments in the order 100, 50, 10 |
| Service.TwoProviders | src/Service/RobotsTxtService.php:36-49 | with two supported providers the higher-priority provider's entry is merged first |
| Service.GenerationExample | tests/Service/RobotsTxtService/RobotsTxtServiceGenerationTest.php:52-88 | the two-provider example renders as the documented ten lines, and `generate` as written gives the same text as the corrected renderer; the equal-priority rules keep their merged order |
| Service.IsEmptyIff | src/Service/RobotsTxtService.php:125-131 | `isEmpty` (trim of the text `generate` returns as written) holds exactly when the collected entry has no content, exactly when that text is "", and exactly when the corrected text is "" |
| Service.IsEmptyIffProvidersEmpty | tests/Service/RobotsTxtService/RobotsTxtServiceGenerationTest.php:204-217 | the service is empty exactly when every supported provider's entry is empty, so whitespace-only comments count as content |
| Service.GenerateAgrees | src/Service/RobotsTxtService.php:26-31 | the text of `generate` equals the corrected text unless the collected entry has comments and sitemaps but no rules, and differs from it in that case; both are empty for the same providers |
| Service.GetProviders | src/Service/RobotsTxtService.php:138-141 | every registered provider is returned in registration order, unsupported ones included |
| EntryEntities.NewEntity | src/Entity/RobotsTxtEntryEntity.php:50-61 | a new entity is active, has empty sitemap and comment lists, and has no name or description yet |
| EntryEntities.SetName | src/Entity/RobotsTxtEntryEntity.php:85-89 | the name is set and nothing else changes |
| EntryEntities.SetActive | src/Entity/RobotsTxtEntryEntity.php:216-220 | the flag is set and nothing else changes |
| EntryEntities.AddUnique | src/Entity/RobotsTxtEntryEntity.php:150-158 | the value is present afterwards; it is appended at the end exactly when it was absent, otherwise the list is unchanged |
| EntryEntities.RemoveFirst | src/Entity/RobotsTxtEntryEntity.php:160-170 | an absent value leaves the list unchanged; otherwise one occurrence of it is removed and nothing else |
| EntryEntities.RemoveFirstSplits | src/Entity/RobotsTxtEntryEntity.php:162-165 | removal keeps everything before the first occurrence and everything after it, in order |
| EntryEntities.AddSitemap | src/Entity/RobotsTxtEntryEntity.php:150-158 | only the sitemap list changes, by the add-if-absent rule |
| EntryEntities.RemoveSitemap | src/Entity/RobotsTxtEntryEntity.php:160-170 | only the sitemap list changes, by removing the first occurrence |
| EntryEntities.AddComment | src/Entity/RobotsTxtEntryEntity.php:189-197 | only the comment list changes, by the add-if-absent rule |
| EntryEntities.RemoveComment | src/Entity/RobotsTxtEntryEntity.php:199-209 | only the comment list changes, by removing the first occurrence |
| EntryEntities.AddIdempotent | src/Entity/RobotsTxtEntryEntity.php:152 | adding the same sitemap or comment twice is the same as adding it once |
| EntryEntities.AddThenRemove | tests/Entity/RobotsTxtEntryEntityTest.php:79-99 | adding a value that was absent and then removing it restores the entity |
| EntryEntities.OperationsKeepDistinct | src/Entity/RobotsTxtEntryEntity.php:150-209 | add and remove keep both lists free of duplicates, and a removed value is gone afterwards |
| EntryEntities.ToString | src/Entity/RobotsTxtEntryEntity.php:232-235 | the display name is the name when active and the name followed by " (未激活)" when inactive; there is none before a name is set |
| EntryEntities.ToggleDisplay | tests/Entity/RobotsTxtEntryEntityTest.php:101-110 | a named entry shows its plain name when active, gains the suffix when switched off, and loses it again when switched back on |
| Text.SplitJoinRoundTrip | src/Model/RobotsTxtEntry.php:109 | joining lines without newlines by "\n" and splitting at newlines gives the lines back |
| Text.TrimEmptyIff | src/Service/RobotsTxtService.php:130 | `trim()` yields "" exactly when every character is one of space, tab, newline, carriage return, NUL or vertical tab |

## Left out

- Provider discovery by service tag: providers are an explicit sequence of records.
- Provider calls are modelled as fixed answers. How often `supports`, `getPriority` and `provide` are called, and any side effects of those calls, are not modelled.
- `prefetchProviderPriorities` only calls `getPriority` and discards the result, so with fixed answers it has no effect.
- The HTTP controller, the admin controllers and menu, dependency injection, bundle wiring and data fixtures are framework plumbing around `generate` and `isEmpty`.
- The rule and directive entities, the entity's Doctrine `rules` collection, its ID and its timestamps are ORM identity and clock reads.
- `setDescription`, `setSitemaps`, `setComments` and the getters of the entity are plain field access. `setSitemaps` and `setComments` can bring in duplicates; `EntryEntities.OperationsKeepDistinct` therefore assumes duplicate-free lists.
- Rules, directives, sitemaps and comments are modelled as lists. PHP arrays with string keys are not modelled: the array spreads in `RobotsTxtEntry`'s `with*` and `merge` (src/Model/RobotsTxtEntry.php:28-94), in `RobotsTxtRule::withDirective(s)` (src/Model/RobotsTxtRule.php:49, 63), and the `array_merge` of the grouping step (src/Model/RobotsTxtEntry.php:167) would let a later equal string key overwrite an earlier one, where `Entries.Merge`, the `with*` operations and `Grouping.AddRule` keep both items.
- PHP turns a numeric user agent such as "123" into an integer array key. It is printed back unchanged, so agents are modelled as plain strings.
- EntryEntities.ToString: returns `None` for an entity without a name, where PHP raises an error instead of returning text.
- Rules.ToString: states emptiness and the header prefix of the text. `Rules.RuleLines` gives the full line structure, provided no part contains a newline.
- Service.GenerationExample: states the rendered lines rather than the joined text. The text `generate` returns equals the corrected text, which is `Text.JoinLines` of those lines, and `Rendering.SplitToString` recovers them from it.
- Rendering.BasicExample: states the rendered lines rather than the joined text, for the same reason.
- Strings are sequences of characters. PHP works on bytes, but nothing here depends on the encoding.

## Findings

| source | as written | input that shows it | evidently intended | confidence | as-written member | corrected member |
|---|---|---|---|---|---|---|
| src/Model/RobotsTxtEntry.php:122-186 | both the comment helper and the sitemap helper add a separator line when there are comments and sitemaps but no rules | an entry with no rules, sitemap "u" and comment "c" renders as "# c\n\n\nSitemap: u" | exactly one empty line between neighbouring sections: "# c\n\nSitemap: u" | not executed | Rendering.AsWrittenDoubleBlank | Rendering.LinesWellSeparated |

The corrected renderer `Rendering.ToString` is built from the present
sections joined by single empty lines. It agrees with `toString` as written
in every other case (`Rendering.AsWrittenAgrees`), and
`Service.GenerateCorrected` renders the collected entry with it.
