/**
 * `RobotsTxtDirective`: one `kind: value` instruction line of a robots.txt
 * group, with its four factory constructors. Nothing is validated or escaped.
 */
module Directives {
  import Decimal
  import opened Options

  /** The property `RobotsTxtDirective::$directive` is called `kind` here. */
  datatype Directive = Directive(kind: string, value: string)

  function Disallow(path: string): (d: Directive)
    ensures d.kind == "Disallow" && d.value == path
  {
    Directive("Disallow", path)
  }

  function Allow(path: string): (d: Directive)
    ensures d.kind == "Allow" && d.value == path
  {
    Directive("Allow", path)
  }

  /** The value is PHP's `(string) $seconds`. */
  function CrawlDelay(seconds: int): (d: Directive)
    ensures d.kind == "Crawl-delay"
    ensures Decimal.DecimalToInt(d.value) == seconds
    ensures Decimal.Canonical(d.value)
    ensures |d.value| > 0 && d.value[0] == '-' <==> seconds < 0
  {
    Decimal.DecimalRoundTrip(seconds);
    Decimal.DecimalCanonical(seconds);
    Directive("Crawl-delay", Decimal.IntToDecimal(seconds))
  }

  function Sitemap(url: string): (d: Directive)
    ensures d.kind == "Sitemap" && d.value == url
  {
    Directive("Sitemap", url)
  }

  /** The line `kind: value`: both parts verbatim around one colon-space. */
  function ToString(d: Directive): (s: string)
    ensures |s| == |d.kind| + 2 + |d.value|
    ensures s[..|d.kind|] == d.kind
    ensures s[|d.kind|..|d.kind| + 2] == ": "
    ensures s[|d.kind| + 2..] == d.value
  {
    d.kind + ": " + d.value
  }

  /** The lines of a directive list, one per directive, in order. */
  function ToLines(ds: seq<Directive>): (lines: seq<string>)
    ensures |lines| == |ds|
    ensures forall i :: 0 <= i < |ds| ==> lines[i] == ToString(ds[i])
  {
    if |ds| == 0 then [] else [ToString(ds[0])] + ToLines(ds[1..])
  }

  /** Index of the first ':' in `s`, or `|s|` when there is none. */
  function FirstColon(s: string): (i: nat)
    ensures i <= |s|
    ensures i < |s| ==> s[i] == ':'
    ensures forall j :: 0 <= j < i ==> s[j] != ':'
  {
    if |s| == 0 then 0 else if s[0] == ':' then 0 else 1 + FirstColon(s[1..])
  }

  /** Reads a `kind: value` line back, splitting at its first colon. */
  function ParseLine(line: string): Option<Directive>
  {
    var i := FirstColon(line);
    if i + 1 < |line| && line[i + 1] == ' ' then Some(Directive(line[..i], line[i + 2..]))
    else None
  }

  /**
   * The line format loses nothing: a directive whose kind has no colon is
   * recovered exactly from its line, whatever its value holds.
   */
  lemma ParseToString(d: Directive)
    requires ':' !in d.kind
    ensures ParseLine(ToString(d)) == Some(d)
  {
    var s := ToString(d);
    assert s[|d.kind|] == ':';
    assert FirstColon(s) == |d.kind|;
  }

  /** The documented renderings: no delay and one day. */
  lemma CrawlDelayExamples()
    ensures CrawlDelay(0).value == "0"
    ensures CrawlDelay(86400).value == "86400"
    ensures CrawlDelay(5).value == "5"
  {
    assert Decimal.NatToDigits(8) == "8";
    assert Decimal.NatToDigits(86) == "8" + "6";
    assert Decimal.NatToDigits(864) == "86" + "4";
    assert Decimal.NatToDigits(8640) == "864" + "0";
    assert Decimal.NatToDigits(86400) == "8640" + "0";
  }
}
