/**
 * `RobotsTxtRule`: the directives aimed at one user agent, with a priority
 * (higher first). Every "with" operation returns a new rule.
 */
module Rules {
  import opened Directives
  import opened Text

  datatype Rule = Rule(userAgent: string, directives: seq<Directive>, priority: int)

  /** The constructor, with its defaults: no directives, priority 0. */
  function NewRule(userAgent: string, directives: seq<Directive> := [], priority: int := 0): (r: Rule)
    ensures r.userAgent == userAgent && r.directives == directives && r.priority == priority
  {
    Rule(userAgent, directives, priority)
  }

  function ForAllAgents(directives: seq<Directive>, priority: int := 0): (r: Rule)
    ensures r.userAgent == "*" && r.directives == directives && r.priority == priority
  {
    Rule("*", directives, priority)
  }

  function ForAgent(userAgent: string, directives: seq<Directive>, priority: int := 0): (r: Rule)
    ensures r.userAgent == userAgent && r.directives == directives && r.priority == priority
  {
    Rule(userAgent, directives, priority)
  }

  /** Appends one directive; agent and priority are kept. */
  function WithDirective(r: Rule, d: Directive): (r': Rule)
    ensures r'.userAgent == r.userAgent && r'.priority == r.priority
    ensures |r'.directives| == |r.directives| + 1
    ensures r'.directives[..|r.directives|] == r.directives
    ensures r'.directives[|r.directives|] == d
  {
    Rule(r.userAgent, r.directives + [d], r.priority)
  }

  /** Appends a list of directives after the existing ones; agent and priority are kept. */
  function WithDirectives(r: Rule, ds: seq<Directive>): (r': Rule)
    ensures r'.userAgent == r.userAgent && r'.priority == r.priority
    ensures |r'.directives| == |r.directives| + |ds|
    ensures r'.directives[..|r.directives|] == r.directives
    ensures r'.directives[|r.directives|..] == ds
  {
    Rule(r.userAgent, r.directives + ds, r.priority)
  }

  /** Appending a list is appending its directives one by one. */
  lemma {:induction false} WithDirectivesIsRepeatedWithDirective(r: Rule, ds: seq<Directive>)
    ensures WithDirectives(r, ds) == if |ds| == 0 then r
                                     else WithDirectives(WithDirective(r, ds[0]), ds[1..])
  {
    if |ds| > 0 {
      assert r.directives + ds == (r.directives + [ds[0]]) + ds[1..];
    } else {
      assert r.directives + ds == r.directives;
    }
  }

  /** The header line of a group. */
  function Header(userAgent: string): string
  {
    "User-agent: " + userAgent
  }

  /** The header line followed by one line per directive. */
  function Block(userAgent: string, directives: seq<Directive>): (lines: seq<string>)
    ensures |lines| == |directives| + 1
    ensures lines[0] == Header(userAgent)
    ensures lines[1..] == ToLines(directives)
  {
    [Header(userAgent)] + ToLines(directives)
  }

  /** `RobotsTxtRule::toString`: nothing at all for a rule without directives. */
  function ToString(r: Rule): (s: string)
    ensures s == "" <==> |r.directives| == 0
    ensures |r.directives| > 0 ==> |s| >= 12 && s[..12] == "User-agent: "
  {
    if |r.directives| == 0 then ""
    else
      var lines := Block(r.userAgent, r.directives);
      assert lines[0] == "User-agent: " + r.userAgent;
      JoinLines(lines)
  }

  ghost predicate NoNewlineIn(r: Rule)
  {
    && '\n' !in r.userAgent
    && forall d :: d in r.directives ==> '\n' !in Directives.ToString(d)
  }

  /**
   * A rule with directives renders as exactly |directives| + 1 lines: the
   * header, then each directive's line in order.
   */
  lemma RuleLines(r: Rule)
    requires |r.directives| > 0
    requires NoNewlineIn(r)
    ensures SplitLines(ToString(r)) == [Header(r.userAgent)] + ToLines(r.directives)
    ensures |SplitLines(ToString(r))| == |r.directives| + 1
  {
    var lines := Block(r.userAgent, r.directives);
    assert '\n' !in Header(r.userAgent) by {
      assert Header(r.userAgent) == "User-agent: " + r.userAgent;
    }
    assert NoNewlines(lines) by {
      forall i | 0 <= i < |lines| ensures '\n' !in lines[i] {
        if i > 0 {
          assert lines[i] == ToLines(r.directives)[i - 1];
        }
      }
    }
    SplitJoinRoundTrip(lines);
  }
}
