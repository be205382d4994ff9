/**
 * `RobotsTxtEntry::toString`: the comment block, the rule groups (rules
 * stable-sorted by priority, highest first, then grouped by user agent in
 * first-appearance order) and the sitemap block, joined by newlines.
 *
 * Two renderers are defined. `LinesAsWritten` follows the three line
 * helpers `getCommentsLines`, `getRulesLines` and `getSitemapsLines`
 * literally, including the separator each helper adds
 * on its own; for an entry with comments and sitemaps but no rules both the
 * comment helper and the sitemap helper add one, which yields two empty
 * lines in a row. `Lines` is the corrected layout (non-empty sections
 * separated by exactly one empty line); it agrees with `toString` in every
 * other case.
 */
module Rendering {
  import opened Text
  import opened StableSort
  import opened Directives
  import opened Rules
  import opened Grouping
  import opened Entries

  function RulePriority(r: Rule): int
  {
    r.priority
  }

  /** `usort($rules, fn ($a, $b) => $b->priority <=> $a->priority)`. */
  function SortRules(rules: seq<Rule>): (sorted: seq<Rule>)
    ensures multiset(sorted) == multiset(rules)
    ensures SortedDesc(sorted, RulePriority)
    ensures forall k :: WithKey(sorted, RulePriority, k) == WithKey(rules, RulePriority, k)
  {
    SortSpec(rules, RulePriority);
    SortDesc(rules, RulePriority)
  }

  /** `groupRulesByUserAgent`. */
  function RuleGroups(rules: seq<Rule>): seq<Group>
  {
    GroupByAgent(SortRules(rules))
  }

  function CommentBlock(comments: seq<string>): seq<string>
  {
    seq(|comments|, i requires 0 <= i < |comments| => "# " + comments[i])
  }

  function GroupBlocks(gs: seq<Group>): seq<seq<string>>
  {
    seq(|gs|, i requires 0 <= i < |gs| => Block(gs[i].agent, gs[i].directives))
  }

  /** `getRulesLines`: group blocks, an empty line before every group but the first. */
  function RuleBlock(rules: seq<Rule>): seq<string>
  {
    JoinBlocks(GroupBlocks(RuleGroups(rules)))
  }

  function SitemapBlock(sitemaps: seq<string>): seq<string>
  {
    seq(|sitemaps|, i requires 0 <= i < |sitemaps| => "Sitemap: " + sitemaps[i])
  }

  // ---------------------------------------------------------------------
  // The line helpers of `RobotsTxtEntry`, as written

  /** `getCommentsLines`. */
  function CommentsLines(e: Entry): seq<string>
  {
    CommentBlock(e.comments)
      + (if |e.comments| > 0 && (|e.rules| > 0 || |e.sitemaps| > 0) then [""] else [])
  }

  /** `getSitemapsLines`. */
  function SitemapsLines(e: Entry): seq<string>
  {
    if |e.sitemaps| > 0 then
      (if |e.comments| > 0 || |e.rules| > 0 then [""] else []) + SitemapBlock(e.sitemaps)
    else []
  }

  function LinesAsWritten(e: Entry): seq<string>
  {
    CommentsLines(e) + RuleBlock(e.rules) + SitemapsLines(e)
  }

  /** `RobotsTxtEntry::toString` exactly as written: the three helpers' lines joined. */
  function ToStringAsWritten(e: Entry): string
  {
    JoinLines(LinesAsWritten(e))
  }

  // ---------------------------------------------------------------------
  // The corrected layout

  /** A section as a list of blocks: itself when it has lines, nothing otherwise. */
  function Present(block: seq<string>): (r: seq<seq<string>>)
    ensures |r| <= 1
    ensures forall i :: 0 <= i < |r| ==> r[i] == block && |block| > 0
  {
    if |block| > 0 then [block] else []
  }

  /** The three sections, each present only when non-empty, one empty line between neighbours. */
  function Lines(e: Entry): seq<string>
  {
    JoinBlocks(Present(CommentBlock(e.comments)) + Present(RuleBlock(e.rules)) + Present(SitemapBlock(e.sitemaps)))
  }

  /** The entry's robots.txt text with single empty lines between sections. */
  function ToString(e: Entry): string
  {
    JoinLines(Lines(e))
  }

  // ---------------------------------------------------------------------
  // The rules section

  lemma GroupBlocksNonEmpty(gs: seq<Group>)
    ensures forall i :: 0 <= i < |GroupBlocks(gs)| ==>
              |GroupBlocks(gs)[i]| > 0 && NoBlankLine(GroupBlocks(gs)[i])
  {
    forall i | 0 <= i < |gs| ensures NoBlankLine(GroupBlocks(gs)[i]) {
      var b := Block(gs[i].agent, gs[i].directives);
      forall j | 0 <= j < |b| ensures b[j] != "" {
        if j > 0 {
          assert b[j] == Directives.ToString(gs[i].directives[j - 1]);
        } else {
          assert b[0] == "User-agent: " + gs[i].agent;
        }
      }
    }
  }

  /**
   * The rules section is empty exactly when there are no rules: a rule
   * without directives still opens a group, whose header is printed.
   */
  lemma RuleBlockShape(rules: seq<Rule>)
    ensures |RuleBlock(rules)| == 0 <==> |rules| == 0
    ensures WellSeparated(RuleBlock(rules))
    ensures |rules| > 0 ==> RuleBlock(rules)[0] == Header(RuleGroups(rules)[0].agent)
  {
    var gs := RuleGroups(rules);
    GroupingProperties(SortRules(rules));
    GroupBlocksNonEmpty(gs);
    var bs := GroupBlocks(gs);
    forall i | 0 <= i < |bs| ensures |bs[i]| > 0 && WellSeparated(bs[i]) {
      NoBlankIsSeparated(bs[i]);
    }
    JoinBlocksSeparated(bs);
  }

  // ---------------------------------------------------------------------
  // Layout lemmas

  /**
   * The corrected layout spelled out: comment lines, then one empty line if
   * anything follows; the rule groups; one empty line between rules and
   * sitemaps when both exist; the sitemap lines.
   */
  lemma LinesLayout(e: Entry)
    ensures Lines(e)
         == CommentBlock(e.comments)
          + (if |e.comments| > 0 && (|e.rules| > 0 || |e.sitemaps| > 0) then [""] else [])
          + RuleBlock(e.rules)
          + (if |e.rules| > 0 && |e.sitemaps| > 0 then [""] else [])
          + SitemapBlock(e.sitemaps)
  {
    RuleBlockShape(e.rules);
    JoinPresent(CommentBlock(e.comments), RuleBlock(e.rules), SitemapBlock(e.sitemaps));
  }

  /** Joining the present sections of three, by cases on which are empty. */
  lemma JoinPresent(c: seq<string>, r: seq<string>, s: seq<string>)
    ensures JoinBlocks(Present(c) + Present(r) + Present(s))
         == c
          + (if |c| > 0 && (|r| > 0 || |s| > 0) then [""] else [])
          + r
          + (if |r| > 0 && |s| > 0 then [""] else [])
          + s
  {
    if |c| > 0 {
      JoinPresentTail(r, s);
      JoinBlocksCons(c, Present(r) + Present(s));
      assert Present(c) + Present(r) + Present(s) == [c] + (Present(r) + Present(s));
    } else {
      JoinPresentTail(r, s);
      assert Present(c) + Present(r) + Present(s) == Present(r) + Present(s);
    }
  }

  lemma JoinPresentTail(r: seq<string>, s: seq<string>)
    ensures JoinBlocks(Present(r) + Present(s)) == r + (if |r| > 0 && |s| > 0 then [""] else []) + s
    ensures |Present(r) + Present(s)| == 0 <==> |r| == 0 && |s| == 0
  {
    if |r| > 0 && |s| > 0 {
      assert Present(r) + Present(s) == [r, s];
      JoinBlocksCons(r, [s]);
    } else if |r| > 0 {
      assert Present(r) + Present(s) == [r];
    } else if |s| > 0 {
      assert Present(r) + Present(s) == [s];
    } else {
      assert Present(r) + Present(s) == [];
    }
  }

  /** Putting a block in front adds it and one empty line, unless nothing follows. */
  lemma JoinBlocksCons(b: seq<string>, rest: seq<seq<string>>)
    ensures JoinBlocks([b] + rest) == if |rest| == 0 then b else b + [""] + JoinBlocks(rest)
  {
    assert ([b] + rest)[1..] == rest;
  }

  /** The corrected layout never shows an empty line at either end or two in a row. */
  lemma PresentMembers(c: seq<string>, r: seq<string>, s: seq<string>, i: nat)
    requires i < |Present(c) + Present(r) + Present(s)|
    ensures var b := (Present(c) + Present(r) + Present(s))[i]; |b| > 0 && (b == c || b == r || b == s)
  {
  }

  lemma LinesWellSeparated(e: Entry)
    ensures WellSeparated(Lines(e))
  {
    var c, r, s := CommentBlock(e.comments), RuleBlock(e.rules), SitemapBlock(e.sitemaps);
    RuleBlockShape(e.rules);
    NoBlankIsSeparated(c);
    NoBlankIsSeparated(s);
    var nb := Present(c) + Present(r) + Present(s);
    forall i | 0 <= i < |nb| ensures |nb[i]| > 0 && WellSeparated(nb[i]) {
      assert nb[i] == c || nb[i] == r || nb[i] == s by {
        PresentMembers(c, r, s, i);
      }
    }
    JoinBlocksSeparated(nb);
  }

  /**
   * The helpers `getCommentsLines`, `getRulesLines` and `getSitemapsLines` produce the corrected layout in every
   * case except comments and sitemaps without rules.
   */
  lemma AsWrittenAgrees(e: Entry)
    requires !(|e.comments| > 0 && |e.rules| == 0 && |e.sitemaps| > 0)
    ensures LinesAsWritten(e) == Lines(e)
    ensures ToStringAsWritten(e) == ToString(e)
  {
    var sep1: seq<string> := if |e.comments| > 0 && (|e.rules| > 0 || |e.sitemaps| > 0) then [""] else [];
    var sep2: seq<string> := if |e.rules| > 0 && |e.sitemaps| > 0 then [""] else [];
    assert Lines(e) == CommentBlock(e.comments) + sep1 + RuleBlock(e.rules) + sep2 + SitemapBlock(e.sitemaps) by {
      LinesLayout(e);
    }
    assert SitemapsLines(e) == sep2 + SitemapBlock(e.sitemaps) by {
      SitemapsLinesAgree(e);
    }
    Regroup(CommentBlock(e.comments), sep1, RuleBlock(e.rules), sep2, SitemapBlock(e.sitemaps));
  }

  /** Proof helper: regrouping five concatenated blocks of lines, kept apart to keep the proof above small. */
  lemma Regroup(a: seq<string>, b: seq<string>, c: seq<string>, d: seq<string>, f: seq<string>)
    ensures (a + b) + c + (d + f) == a + b + c + d + f
  {
  }

  lemma SitemapsLinesAgree(e: Entry)
    requires !(|e.comments| > 0 && |e.rules| == 0 && |e.sitemaps| > 0)
    ensures SitemapsLines(e) == (if |e.rules| > 0 && |e.sitemaps| > 0 then [""] else []) + SitemapBlock(e.sitemaps)
  {
    if |e.sitemaps| == 0 {
      assert SitemapBlock(e.sitemaps) == [];
    }
  }

  /**
   * With comments and sitemaps but no rules `RobotsTxtEntry::toString` emits two empty
   * lines between the comment block and the sitemap block.
   */
  lemma AsWrittenDoubleBlank(e: Entry)
    requires |e.comments| > 0 && |e.rules| == 0 && |e.sitemaps| > 0
    ensures LinesAsWritten(e) == CommentBlock(e.comments) + ["", ""] + SitemapBlock(e.sitemaps)
    ensures !WellSeparated(LinesAsWritten(e))
    ensures LinesAsWritten(e) != Lines(e)
  {
    RuleBlockShape(e.rules);
    LinesWellSeparated(e);
    var l := LinesAsWritten(e);
    var k := |e.comments|;
    assert l[k] == "" && l[k + 1] == "";
  }

  /** In that case the text of `RobotsTxtEntry::toString` is one newline longer than the corrected text. */
  lemma AsWrittenExtraNewline(e: Entry)
    requires |e.comments| > 0 && |e.rules| == 0 && |e.sitemaps| > 0
    ensures |ToStringAsWritten(e)| == |ToString(e)| + 1
    ensures ToStringAsWritten(e) != ToString(e)
  {
    var c, s := CommentBlock(e.comments), SitemapBlock(e.sitemaps);
    var x := [""] + s;
    var y := [""] + x;
    assert |c| > 0 && |s| > 0;
    assert LinesAsWritten(e) == c + y by {
      AsWrittenDoubleBlank(e);
    }
    assert Lines(e) == c + x by {
      LinesLayout(e);
      RuleBlockShape(e.rules);
    }
    var jc, jx := JoinLines(c), JoinLines(x);
    assert ToStringAsWritten(e) == jc + "\n" + JoinLines(y) by {
      JoinLinesAppend(c, y);
    }
    assert ToString(e) == jc + "\n" + jx by {
      JoinLinesAppend(c, x);
    }
    assert JoinLines(y) == "" + "\n" + jx by {
      assert y[1..] == x;
    }
  }

  /** The smallest input that shows the doubled separator. */
  lemma DoubleBlankExample()
    ensures ToStringAsWritten(Entry([], ["u"], ["c"])) == "# c\n\n\nSitemap: u"
    ensures ToString(Entry([], ["u"], ["c"])) == "# c\n\nSitemap: u"
  {
    var e := Entry([], ["u"], ["c"]);
    AsWrittenDoubleBlank(e);
    LinesLayout(e);
    assert CommentBlock(e.comments) == ["# c"] by {
      assert CommentBlock(e.comments)[0] == "# " + "c" == "# c";
    }
    assert SitemapBlock(e.sitemaps) == ["Sitemap: u"] by {
      assert SitemapBlock(e.sitemaps)[0] == "Sitemap: " + "u" == "Sitemap: u";
    }
    assert RuleBlock(e.rules) == [] by {
      RuleBlockShape(e.rules);
    }
    assert LinesAsWritten(e) == ["# c", "", "", "Sitemap: u"];
    assert Lines(e) == ["# c", "", "Sitemap: u"];
    JoinExamples();
  }

  lemma JoinExamples()
    ensures JoinLines(["# c", "", "", "Sitemap: u"]) == "# c\n\n\nSitemap: u"
    ensures JoinLines(["# c", "", "Sitemap: u"]) == "# c\n\nSitemap: u"
  {
    var a := ["# c", "", "", "Sitemap: u"];
    assert a[1..] == ["", "", "Sitemap: u"];
    assert a[1..][1..] == ["", "Sitemap: u"];
    assert a[1..][1..][1..] == ["Sitemap: u"];
    var b := ["# c", "", "Sitemap: u"];
    assert b[1..] == ["", "Sitemap: u"];
    assert b[1..][1..] == ["Sitemap: u"];
  }

  // ---------------------------------------------------------------------
  // Emptiness

  /**
   * The text is empty exactly when the entry holds nothing; otherwise it
   * starts with '#', 'U' or 'S' (a comment, a group header or a sitemap
   * line), never with a character `trim()` would strip.
   */
  lemma ToStringEmptyIff(e: Entry)
    ensures ToString(e) == "" <==> HasNoContent(e)
    ensures !HasNoContent(e) ==> ToString(e)[0] in {'#', 'U', 'S'} && !IsTrimmed(ToString(e)[0])
  {
    if HasNoContent(e) {
      LinesLayout(e);
      RuleBlockShape(e.rules);
    } else {
      FirstLine(e);
      assert ToString(e)[..|Lines(e)[0]|] == Lines(e)[0];
      assert ToString(e)[0] == Lines(e)[0][0];
    }
  }

  /** A non-empty entry's first line is a comment, a group header or a sitemap line. */
  lemma FirstLine(e: Entry)
    requires !HasNoContent(e)
    ensures |Lines(e)| > 0 && |Lines(e)[0]| > 0 && Lines(e)[0][0] in {'#', 'U', 'S'}
  {
    LinesLayout(e);
    RuleBlockShape(e.rules);
    var l := Lines(e);
    if |e.comments| > 0 {
      assert l[0] == "# " + e.comments[0];
    } else if |e.rules| > 0 {
      assert l[0] == "User-agent: " + RuleGroups(e.rules)[0].agent;
    } else {
      assert l[0] == "Sitemap: " + e.sitemaps[0];
    }
  }

  /**
   * The same holds of `RobotsTxtEntry::toString` as written: its text is
   * empty exactly for an empty entry, and otherwise starts with a character
   * `trim()` keeps.
   */
  lemma ToStringAsWrittenEmptyIff(e: Entry)
    ensures ToStringAsWritten(e) == "" <==> HasNoContent(e)
    ensures !HasNoContent(e) ==>
              ToStringAsWritten(e)[0] in {'#', 'U', 'S'} && !IsTrimmed(ToStringAsWritten(e)[0])
  {
    if |e.comments| > 0 && |e.rules| == 0 && |e.sitemaps| > 0 {
      AsWrittenDoubleBlank(e);
      var l := LinesAsWritten(e);
      assert l[0] == "# " + e.comments[0];
      assert ToStringAsWritten(e)[..|l[0]|] == l[0];
      assert ToStringAsWritten(e)[0] == '#';
    } else {
      AsWrittenAgrees(e);
      ToStringEmptyIff(e);
    }
  }

  // ---------------------------------------------------------------------
  // Lines of the text

  ghost predicate NoNewlineIn(e: Entry)
  {
    && (forall c :: c in e.comments ==> '\n' !in c)
    && (forall u :: u in e.sitemaps ==> '\n' !in u)
    && (forall r :: r in e.rules ==> Rules.NoNewlineIn(r))
  }

  lemma {:induction false} DirectivesForNoNewlines(rules: seq<Rule>, agent: string)
    requires forall r :: r in rules ==> Rules.NoNewlineIn(r)
    ensures forall d :: d in DirectivesFor(rules, agent) ==> '\n' !in Directives.ToString(d)
  {
    if |rules| > 0 {
      DirectivesForNoNewlines(rules[1..], agent);
      assert Rules.NoNewlineIn(rules[0]);
    }
  }

  lemma GroupBlockNoNewlines(rules: seq<Rule>, g: Group)
    requires forall r :: r in rules ==> Rules.NoNewlineIn(r)
    requires g.agent in AgentsOf(rules)
    requires g.directives == DirectivesFor(rules, g.agent)
    ensures NoNewlines(Block(g.agent, g.directives))
  {
    var k :| 0 <= k < |rules| && AgentsOf(rules)[k] == g.agent;
    assert Rules.NoNewlineIn(rules[k]);
    DirectivesForNoNewlines(rules, g.agent);
    var b := Block(g.agent, g.directives);
    forall j | 0 <= j < |b| ensures '\n' !in b[j] {
      if j == 0 {
        assert b[0] == "User-agent: " + g.agent;
      } else {
        assert b[j] == Directives.ToString(g.directives[j - 1]);
      }
    }
  }

  lemma RuleBlockNoNewlines(rules: seq<Rule>)
    requires forall r :: r in rules ==> Rules.NoNewlineIn(r)
    ensures NoNewlines(RuleBlock(rules))
  {
    var sorted := SortRules(rules);
    forall r | r in sorted ensures Rules.NoNewlineIn(r) {
      assert r in multiset(rules);
    }
    var gs := RuleGroups(rules);
    GroupingProperties(sorted);
    var bs := GroupBlocks(gs);
    forall i | 0 <= i < |bs| ensures NoNewlines(bs[i]) {
      assert gs[i].agent in GroupAgents(gs);
      GroupBlockNoNewlines(sorted, gs[i]);
    }
    JoinBlocksNoNewlines(bs);
  }

  lemma CommentBlockNoNewlines(comments: seq<string>)
    requires forall c :: c in comments ==> '\n' !in c
    ensures NoNewlines(CommentBlock(comments))
  {
    var c := CommentBlock(comments);
    forall i | 0 <= i < |c| ensures '\n' !in c[i] {
      assert comments[i] in comments;
      assert c[i] == "# " + comments[i];
    }
  }

  lemma SitemapBlockNoNewlines(urls: seq<string>)
    requires forall u :: u in urls ==> '\n' !in u
    ensures NoNewlines(SitemapBlock(urls))
  {
    var s := SitemapBlock(urls);
    forall i | 0 <= i < |s| ensures '\n' !in s[i] {
      assert urls[i] in urls;
      assert s[i] == "Sitemap: " + urls[i];
    }
  }

  lemma LinesNoNewlines(e: Entry)
    requires NoNewlineIn(e)
    ensures NoNewlines(Lines(e))
  {
    var c, r, s := CommentBlock(e.comments), RuleBlock(e.rules), SitemapBlock(e.sitemaps);
    RuleBlockNoNewlines(e.rules);
    CommentBlockNoNewlines(e.comments);
    SitemapBlockNoNewlines(e.sitemaps);
    var nb := Present(c) + Present(r) + Present(s);
    forall i | 0 <= i < |nb| ensures NoNewlines(nb[i]) {
      assert nb[i] == c || nb[i] == r || nb[i] == s;
    }
    JoinBlocksNoNewlines(nb);
  }

  /**
   * When no comment, URL, agent or directive holds a newline, splitting the
   * text at newlines gives back exactly the rendered lines.
   */
  lemma SplitToString(e: Entry)
    requires !HasNoContent(e)
    requires NoNewlineIn(e)
    ensures SplitLines(ToString(e)) == Lines(e)
  {
    LinesNoNewlines(e);
    ToStringEmptyIff(e);
    SplitJoinRoundTrip(Lines(e));
  }

  lemma LinesAsWrittenNoNewlines(e: Entry)
    requires NoNewlineIn(e)
    ensures NoNewlines(LinesAsWritten(e))
  {
    if |e.comments| > 0 && |e.rules| == 0 && |e.sitemaps| > 0 {
      var c, s := CommentBlock(e.comments), SitemapBlock(e.sitemaps);
      AsWrittenDoubleBlank(e);
      CommentBlockNoNewlines(e.comments);
      SitemapBlockNoNewlines(e.sitemaps);
      var l := LinesAsWritten(e);
      forall i | 0 <= i < |l| ensures '\n' !in l[i] {
        if i < |c| {
          assert l[i] == c[i];
        } else if i >= |c| + 2 {
          assert l[i] == s[i - |c| - 2];
        }
      }
    } else {
      AsWrittenAgrees(e);
      LinesNoNewlines(e);
    }
  }

  /** The same for `RobotsTxtEntry::toString` as written: its text splits back into its lines. */
  lemma SplitToStringAsWritten(e: Entry)
    requires !HasNoContent(e)
    requires NoNewlineIn(e)
    ensures SplitLines(ToStringAsWritten(e)) == LinesAsWritten(e)
  {
    LinesAsWrittenNoNewlines(e);
    ToStringAsWrittenEmptyIff(e);
    SplitJoinRoundTrip(LinesAsWritten(e));
  }

  // ---------------------------------------------------------------------
  // Relation to the rule renderer

  /**
   * An entry holding one rule prints that rule's text when the rule has
   * directives, and a bare header line when it has none, where
   * `RobotsTxtRule::toString` prints nothing.
   */
  lemma SingleRuleEntry(r: Rule)
    ensures ToString(Entry([r], [], [])) ==
            if |r.directives| > 0 then Rules.ToString(r) else Header(r.userAgent)
    ensures ToStringAsWritten(Entry([r], [], [])) == ToString(Entry([r], [], []))
  {
    var e := Entry([r], [], []);
    AsWrittenAgrees(e);
    LinesLayout(e);
    SingleRuleBlock(r);
    assert Lines(e) == Block(r.userAgent, r.directives);
  }

  /**
   * One comment, one rule for every agent and one sitemap: each section
   * appears once, separated by single empty lines, and
   * `RobotsTxtEntry::toString` as written gives the same text.
   */
  lemma BasicExample()
    ensures var e := Entry([ForAllAgents([Disallow("/admin/")])],
                           ["https://example.com/sitemap.xml"], ["Generated by test"]);
      && Lines(e) == ["# Generated by test", "",
                      "User-agent: *", "Disallow: /admin/", "",
                      "Sitemap: https://example.com/sitemap.xml"]
      && ToStringAsWritten(e) == ToString(e)
  {
    var r := ForAllAgents([Disallow("/admin/")]);
    var e := Entry([r], ["https://example.com/sitemap.xml"], ["Generated by test"]);
    OneOfEachLayout(e);
    BasicStrings();
  }

  // ---------------------------------------------------------------------
  // Proof helpers: the literal lines of the examples, one small fact each
  // so that no single proof has to evaluate all of them at once

  lemma BasicStrings()
    ensures "# " + "Generated by test" == "# Generated by test"
    ensures "Sitemap: " + "https://example.com/sitemap.xml" == "Sitemap: https://example.com/sitemap.xml"
    ensures Header("*") == "User-agent: *"
    ensures Directives.ToString(Disallow("/admin/")) == "Disallow: /admin/"
  {
    GeneratedComment();
    ExampleSitemap();
    StarHeader();
    DisallowAdmin();
  }

  lemma GeneratedComment()
    ensures "# " + "Generated by test" == "# Generated by test"
  {
  }

  lemma ExampleSitemap()
    ensures "Sitemap: " + "https://example.com/sitemap.xml" == "Sitemap: https://example.com/sitemap.xml"
  {
  }

  lemma StarHeader()
    ensures Header("*") == "User-agent: *"
  {
  }

  lemma DisallowAdmin()
    ensures Directives.ToString(Disallow("/admin/")) == "Disallow: /admin/"
  {
    assert Directives.ToString(Disallow("/admin/")) == "Disallow" + ": " + "/admin/";
  }

  lemma SingleRuleBlock(r: Rule)
    ensures RuleBlock([r]) == Block(r.userAgent, r.directives)
  {
    assert SortRules([r]) == [r] by {
      assert SortDesc([r], RulePriority) == Insert(r, SortDesc([], RulePriority), RulePriority);
    }
    assert GroupByAgent([r]) == [Group(r.userAgent, r.directives)] by {
      assert [r][..0] == [];
    }
    assert GroupBlocks([Group(r.userAgent, r.directives)]) == [Block(r.userAgent, r.directives)];
  }

  /** The layout of an entry with one comment, one single-directive rule and one sitemap. */
  lemma OneOfEachLayout(e: Entry)
    requires |e.comments| == 1 && |e.rules| == 1 && |e.sitemaps| == 1
    requires |e.rules[0].directives| == 1
    ensures Lines(e) == ["# " + e.comments[0], "",
                         Header(e.rules[0].userAgent), Directives.ToString(e.rules[0].directives[0]), "",
                         "Sitemap: " + e.sitemaps[0]]
    ensures ToStringAsWritten(e) == ToString(e)
  {
    var r := e.rules[0];
    assert e.rules == [r];
    SingleRuleBlock(r);
    LinesLayout(e);
    AsWrittenAgrees(e);
    assert Block(r.userAgent, r.directives) == [Header(r.userAgent), Directives.ToString(r.directives[0])];
    assert CommentBlock(e.comments) == ["# " + e.comments[0]];
    assert SitemapBlock(e.sitemaps) == ["Sitemap: " + e.sitemaps[0]];
  }
}
