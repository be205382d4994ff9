/**
 * The grouping step of `RobotsTxtEntry::toString`: rules (already sorted)
 * are folded into an insertion-ordered map from user agent to the
 * concatenation of that agent's directive lists.
 */
module Grouping {
  import opened Directives
  import opened Rules

  /** One entry of the grouped map: an agent and all its directives. */
  datatype Group = Group(agent: string, directives: seq<Directive>)

  function GroupAgents(gs: seq<Group>): (agents: seq<string>)
    ensures |agents| == |gs|
    ensures forall i :: 0 <= i < |gs| ==> agents[i] == gs[i].agent
  {
    seq(|gs|, i requires 0 <= i < |gs| => gs[i].agent)
  }

  ghost predicate Distinct(xs: seq<string>)
  {
    forall i, j :: 0 <= i < j < |xs| ==> xs[i] != xs[j]
  }

  /**
   * One iteration of the loop in `groupRulesByUserAgent`: when the rule's agent already has a
   * group its directives are appended there, otherwise a new group is
   * opened at the end (PHP arrays keep insertion order).
   */
  function AddRule(groups: seq<Group>, r: Rule): (gs: seq<Group>)
  {
    if |groups| == 0 then [Group(r.userAgent, r.directives)]
    else if groups[0].agent == r.userAgent then
      [Group(groups[0].agent, groups[0].directives + r.directives)] + groups[1..]
    else [groups[0]] + AddRule(groups[1..], r)
  }

  /** The whole loop: a left fold of AddRule over the rules, from no groups. */
  function GroupByAgent(rules: seq<Rule>): seq<Group>
  {
    if |rules| == 0 then [] else AddRule(GroupByAgent(rules[..|rules| - 1]), rules[|rules| - 1])
  }

  // ---------------------------------------------------------------------
  // Reference description of the grouping

  function AgentsOf(rules: seq<Rule>): (agents: seq<string>)
    ensures |agents| == |rules|
    ensures forall i :: 0 <= i < |rules| ==> agents[i] == rules[i].userAgent
  {
    seq(|rules|, i requires 0 <= i < |rules| => rules[i].userAgent)
  }

  /** Each value of `xs` once, at the position of its first occurrence. */
  function FirstAppearances(xs: seq<string>): (r: seq<string>)
    ensures forall x :: x in r <==> x in xs
    ensures Distinct(r)
  {
    if |xs| == 0 then []
    else
      var init := FirstAppearances(xs[..|xs| - 1]);
      var x := xs[|xs| - 1];
      assert xs == xs[..|xs| - 1] + [x];
      if x in xs[..|xs| - 1] then init else init + [x]
  }

  /** Position of the first occurrence of `x` in `xs`. */
  function FirstIndex(xs: seq<string>, x: string): (i: nat)
    requires x in xs
    ensures i < |xs| && xs[i] == x && x !in xs[..i]
  {
    if xs[0] == x then 0 else 1 + FirstIndex(xs[1..], x)
  }

  /** The directives of all rules for `agent`, concatenated in rule order. */
  function DirectivesFor(rules: seq<Rule>, agent: string): seq<Directive>
  {
    if |rules| == 0 then []
    else (if rules[0].userAgent == agent then rules[0].directives else []) + DirectivesFor(rules[1..], agent)
  }

  /** The grouping `groupRulesByUserAgent` promises: one group per distinct agent, in first-appearance order. */
  function Reference(rules: seq<Rule>): (gs: seq<Group>)
    ensures GroupAgents(gs) == FirstAppearances(AgentsOf(rules))
  {
    var fa := FirstAppearances(AgentsOf(rules));
    seq(|fa|, i requires 0 <= i < |fa| => Group(fa[i], DirectivesFor(rules, fa[i])))
  }

  // ---------------------------------------------------------------------
  // Lemmas

  /** First appearances are listed in the order of their first occurrence. */
  lemma {:induction false} FirstAppearancesOrdered(xs: seq<string>)
    ensures forall i, j :: 0 <= i < j < |FirstAppearances(xs)| ==>
              FirstIndex(xs, FirstAppearances(xs)[i]) < FirstIndex(xs, FirstAppearances(xs)[j])
  {
    if |xs| > 0 {
      var init := xs[..|xs| - 1];
      var x := xs[|xs| - 1];
      FirstAppearancesOrdered(init);
      var fa := FirstAppearances(xs);
      var fi := FirstAppearances(init);
      assert xs == init + [x];
      forall y | y in init ensures FirstIndex(xs, y) == FirstIndex(init, y) {
        FirstIndexPrefix(init, [x], y);
      }
      if x !in init {
        assert fa == fi + [x];
        assert FirstIndex(xs, x) == |init| by {
          // x does not occur in init, so its first occurrence is the last position
          assert xs[|init|] == x;
        }
        forall i, j | 0 <= i < j < |fa| ensures FirstIndex(xs, fa[i]) < FirstIndex(xs, fa[j]) {
          assert fa[i] == fi[i] && fa[i] in init;
          assert FirstIndex(xs, fa[i]) == FirstIndex(init, fa[i]) < |init|;
          if j < |fi| {
            assert fa[j] == fi[j] && fa[j] in init;
            assert FirstIndex(xs, fa[j]) == FirstIndex(init, fa[j]);
            assert FirstIndex(init, fi[i]) < FirstIndex(init, fi[j]);
          } else {
            assert fa[j] == x;
          }
        }
      } else {
        assert fa == fi;
        forall i, j | 0 <= i < j < |fa| ensures FirstIndex(xs, fa[i]) < FirstIndex(xs, fa[j]) {
          assert fa[i] in init && fa[j] in init;
        }
      }
    }
  }

  lemma {:induction false} FirstIndexPrefix(a: seq<string>, b: seq<string>, y: string)
    requires y in a
    ensures FirstIndex(a + b, y) == FirstIndex(a, y)
  {
    if a[0] != y {
      assert (a + b)[1..] == a[1..] + b;
      FirstIndexPrefix(a[1..], b, y);
    }
  }

  lemma {:induction false} DirectivesForSnoc(rules: seq<Rule>, r: Rule, agent: string)
    ensures DirectivesFor(rules + [r], agent)
         == DirectivesFor(rules, agent) + (if r.userAgent == agent then r.directives else [])
  {
    if |rules| == 0 {
      assert rules + [r] == [r];
    } else {
      assert (rules + [r])[1..] == rules[1..] + [r];
      DirectivesForSnoc(rules[1..], r, agent);
    }
  }

  /** AddRule on distinct groups extends the matching group or appends a new one. */
  lemma {:induction false} AddRuleEffect(groups: seq<Group>, r: Rule)
    requires Distinct(GroupAgents(groups))
    ensures var gs := AddRule(groups, r);
      if r.userAgent in GroupAgents(groups) then
        |gs| == |groups|
        && forall i :: 0 <= i < |groups| ==>
             gs[i] == if groups[i].agent == r.userAgent
                      then Group(groups[i].agent, groups[i].directives + r.directives)
                      else groups[i]
      else gs == groups + [Group(r.userAgent, r.directives)]
  {
    if |groups| > 0 {
      var tail := groups[1..];
      assert GroupAgents(tail) == GroupAgents(groups)[1..];
      assert Distinct(GroupAgents(tail));
      AddRuleEffect(tail, r);
      if groups[0].agent == r.userAgent {
        forall i | 1 <= i < |groups| ensures groups[i].agent != r.userAgent {
          assert GroupAgents(groups)[0] != GroupAgents(groups)[i];
        }
      } else {
        assert r.userAgent in GroupAgents(groups) <==> r.userAgent in GroupAgents(tail);
        if r.userAgent in GroupAgents(groups) {
          var gs := AddRule(groups, r);
          forall i | 0 <= i < |groups|
            ensures gs[i] == if groups[i].agent == r.userAgent
                             then Group(groups[i].agent, groups[i].directives + r.directives)
                             else groups[i]
          {
            if i > 0 {
              assert gs[i] == AddRule(tail, r)[i - 1];
              assert groups[i] == tail[i - 1];
            }
          }
        }
      }
    }
  }

  /**
   * The fold computes the reference grouping: one group per distinct user
   * agent, in the order agents first appear, each holding the concatenation
   * of its rules' directives in rule order. A rule without directives still
   * opens its agent's group.
   */
  lemma {:induction false} GroupByAgentIsReference(rules: seq<Rule>)
    ensures GroupByAgent(rules) == Reference(rules)
  {
    if |rules| > 0 {
      var init := rules[..|rules| - 1];
      var r := rules[|rules| - 1];
      assert rules == init + [r];
      GroupByAgentIsReference(init);
      AddRuleReference(init, r);
    }
  }

  /** One step of the fold keeps it equal to the reference grouping. */
  lemma {:induction false} AddRuleReference(init: seq<Rule>, r: Rule)
    ensures AddRule(Reference(init), r) == Reference(init + [r])
  {
    if r.userAgent in AgentsOf(init) {
      AddRuleReferenceKnown(init, r);
    } else {
      AddRuleReferenceNew(init, r);
    }
  }

  lemma {:induction false} FirstAppearancesSnoc(init: seq<Rule>, r: Rule)
    ensures FirstAppearances(AgentsOf(init + [r]))
         == if r.userAgent in AgentsOf(init) then FirstAppearances(AgentsOf(init))
            else FirstAppearances(AgentsOf(init)) + [r.userAgent]
  {
    var xs := AgentsOf(init + [r]);
    assert xs[..|xs| - 1] == AgentsOf(init);
  }

  /** A rule for an agent already seen extends that agent's group. */
  lemma {:induction false} AddRuleReferenceKnown(init: seq<Rule>, r: Rule)
    requires r.userAgent in AgentsOf(init)
    ensures AddRule(Reference(init), r) == Reference(init + [r])
  {
    var before := Reference(init);
    var after := Reference(init + [r]);
    FirstAppearancesSnoc(init, r);
    AddRuleEffect(before, r);
    assert r.userAgent in GroupAgents(before);
    var gs := AddRule(before, r);
    assert |gs| == |after|;
    forall i | 0 <= i < |gs| ensures gs[i] == after[i] {
      DirectivesForSnoc(init, r, before[i].agent);
    }
  }

  /** A rule for a new agent appends a group holding its directives. */
  lemma {:induction false} AddRuleReferenceNew(init: seq<Rule>, r: Rule)
    requires r.userAgent !in AgentsOf(init)
    ensures AddRule(Reference(init), r) == Reference(init + [r])
  {
    var before := Reference(init);
    assert AddRule(before, r) == before + [Group(r.userAgent, r.directives)] by {
      AddRuleEffect(before, r);
    }
    ReferenceSnocNew(init, r);
  }

  lemma {:induction false} ReferenceSnocNew(init: seq<Rule>, r: Rule)
    requires r.userAgent !in AgentsOf(init)
    ensures Reference(init + [r]) == Reference(init) + [Group(r.userAgent, r.directives)]
  {
    var before := Reference(init);
    var after := Reference(init + [r]);
    FirstAppearancesSnoc(init, r);
    assert |after| == |before| + 1;
    forall i | 0 <= i < |after| ensures after[i] == (before + [Group(r.userAgent, r.directives)])[i] {
      ReferenceSnocNewAt(init, r, i);
    }
  }

  lemma {:induction false} ReferenceSnocNewAt(init: seq<Rule>, r: Rule, i: nat)
    requires r.userAgent !in AgentsOf(init)
    requires i <= |Reference(init)|
    ensures |Reference(init + [r])| == |Reference(init)| + 1
    ensures Reference(init + [r])[i] == (Reference(init) + [Group(r.userAgent, r.directives)])[i]
  {
    var faInit := FirstAppearances(AgentsOf(init));
    FirstAppearancesSnoc(init, r);
    if i < |faInit| {
      assert faInit[i] in AgentsOf(init);
      DirectivesForSnoc(init, r, faInit[i]);
    } else {
      DirectivesForSnoc(init, r, r.userAgent);
      DirectivesForAbsent(init, r.userAgent);
    }
  }

  lemma {:induction false} DirectivesForAbsent(rules: seq<Rule>, agent: string)
    requires agent !in AgentsOf(rules)
    ensures DirectivesFor(rules, agent) == []
  {
    if |rules| > 0 {
      assert AgentsOf(rules[1..]) == AgentsOf(rules)[1..];
      assert rules[0].userAgent == AgentsOf(rules)[0];
      DirectivesForAbsent(rules[1..], agent);
    }
  }

  /**
   * Summary of `groupRulesByUserAgent` in its own terms: every agent heads
   * exactly one group, agents come in first-appearance order, and every rule
   * (with or without directives) is represented.
   */
  lemma {:induction false} GroupingProperties(rules: seq<Rule>)
    ensures var gs := GroupByAgent(rules);
      && Distinct(GroupAgents(gs))
      && (forall a :: a in GroupAgents(gs) <==> a in AgentsOf(rules))
      && (forall i :: 0 <= i < |gs| ==> gs[i].directives == DirectivesFor(rules, gs[i].agent))
      && (forall i, j :: 0 <= i < j < |gs| ==>
            FirstIndex(AgentsOf(rules), gs[i].agent) < FirstIndex(AgentsOf(rules), gs[j].agent))
      && (|gs| == 0 <==> |rules| == 0)
  {
    var gs := GroupByAgent(rules);
    var agents := AgentsOf(rules);
    var fa := FirstAppearances(agents);
    GroupByAgentIsReference(rules);
    FirstAppearancesOrdered(agents);
    assert GroupAgents(gs) == fa;
    forall i | 0 <= i < |gs| ensures gs[i].agent == fa[i] && gs[i].directives == DirectivesFor(rules, gs[i].agent) {
      assert gs[i] == Reference(rules)[i];
    }
    if |rules| > 0 {
      assert agents[0] in fa;
    }
  }
}
