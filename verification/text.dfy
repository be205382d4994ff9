/**
 * Line-oriented string helpers shared by the renderers: PHP's
 * `implode("\n", $lines)`, its inverse (splitting on every newline), and
 * PHP's `trim()` with its default character set.
 */
module Text {

  /** `implode("\n", lines)`: the lines separated by single newlines, no trailing newline. */
  function JoinLines(lines: seq<string>): (s: string)
    ensures |lines| == 0 ==> s == ""
    ensures |lines| > 0 ==> |s| >= |lines[0]| && s[..|lines[0]|] == lines[0]
  {
    if |lines| == 0 then ""
    else if |lines| == 1 then lines[0]
    else lines[0] + "\n" + JoinLines(lines[1..])
  }

  /** Joining two non-empty lists of lines puts one newline between their joined texts. */
  lemma {:induction false} JoinLinesAppend(a: seq<string>, b: seq<string>)
    requires |a| > 0 && |b| > 0
    ensures JoinLines(a + b) == JoinLines(a) + "\n" + JoinLines(b)
  {
    if |a| == 1 {
      assert (a + b)[1..] == b;
    } else {
      assert (a + b)[1..] == a[1..] + b;
      JoinLinesAppend(a[1..], b);
    }
  }

  /** Splits at every newline; the empty string is one empty line. */
  function SplitLines(s: string): (lines: seq<string>)
    ensures |lines| > 0
  {
    if |s| == 0 then [""]
    else
      var rest := SplitLines(s[1..]);
      if s[0] == '\n' then [""] + rest
      else [[s[0]] + rest[0]] + rest[1..]
  }

  ghost predicate NoNewlines(lines: seq<string>)
  {
    forall i :: 0 <= i < |lines| ==> '\n' !in lines[i]
  }

  /** A string without a newline is a single line. */
  lemma {:induction false} SplitSingleLine(a: string)
    requires '\n' !in a
    ensures SplitLines(a) == [a]
  {
    if |a| > 0 {
      assert '\n' !in a[1..] by {
        forall k | 0 <= k < |a[1..]| ensures a[1..][k] != '\n' {
          assert a[1..][k] == a[k + 1];
        }
      }
      SplitSingleLine(a[1..]);
      assert [a[0]] + a[1..] == a;
    }
  }

  /** Splitting `a + "\n" + b` yields `a` followed by the lines of `b`. */
  lemma {:induction false} SplitAtNewline(a: string, b: string)
    requires '\n' !in a
    ensures SplitLines(a + "\n" + b) == [a] + SplitLines(b)
  {
    if |a| == 0 {
      assert a + "\n" + b == "\n" + b;
      assert ("\n" + b)[1..] == b;
    } else {
      var s := a + "\n" + b;
      assert s[0] == a[0];
      assert s[1..] == a[1..] + "\n" + b;
      assert '\n' !in a[1..] by {
        forall k | 0 <= k < |a[1..]| ensures a[1..][k] != '\n' {
          assert a[1..][k] == a[k + 1];
        }
      }
      SplitAtNewline(a[1..], b);
      assert [a[0]] + a[1..] == a;
    }
  }

  /** Joining and splitting are inverse on non-empty newline-free line lists. */
  lemma {:induction false} SplitJoinRoundTrip(lines: seq<string>)
    requires |lines| > 0
    requires NoNewlines(lines)
    ensures SplitLines(JoinLines(lines)) == lines
  {
    if |lines| == 1 {
      SplitSingleLine(lines[0]);
    } else {
      assert NoNewlines(lines[1..]) by {
        forall i | 0 <= i < |lines[1..]| ensures '\n' !in lines[1..][i] {
          assert lines[1..][i] == lines[i + 1];
        }
      }
      SplitJoinRoundTrip(lines[1..]);
      assert '\n' !in lines[0];
      SplitAtNewline(lines[0], JoinLines(lines[1..]));
      assert [lines[0]] + lines[1..] == lines;
    }
  }

  /** The characters PHP's `trim()` strips by default: " \t\n\r\0\x0B". */
  predicate IsTrimmed(c: char)
  {
    c == ' ' || c == '\t' || c == '\n' || c == '\r' || c == '\0' || c == '\U{0B}'
  }

  function TrimLeft(s: string): (r: string)
    ensures |r| <= |s|
    ensures r == s[|s| - |r|..]
    ensures forall i :: 0 <= i < |s| - |r| ==> IsTrimmed(s[i])
    ensures |r| > 0 ==> !IsTrimmed(r[0])
  {
    if |s| > 0 && IsTrimmed(s[0]) then TrimLeft(s[1..]) else s
  }

  function TrimRight(s: string): (r: string)
    ensures |r| <= |s|
    ensures r == s[..|r|]
    ensures forall i :: |r| <= i < |s| ==> IsTrimmed(s[i])
    ensures |r| > 0 ==> !IsTrimmed(r[|r| - 1])
  {
    if |s| > 0 && IsTrimmed(s[|s| - 1]) then TrimRight(s[..|s| - 1]) else s
  }

  /** PHP `trim($s)`: strips trimmable characters from both ends. */
  function Trim(s: string): string
  {
    TrimRight(TrimLeft(s))
  }

  /** `trim($s) === ''` exactly when every character of `s` is trimmable. */
  lemma TrimEmptyIff(s: string)
    ensures Trim(s) == "" <==> forall i :: 0 <= i < |s| ==> IsTrimmed(s[i])
  {
    var l := TrimLeft(s);
    if Trim(s) == "" {
      // a non-empty TrimLeft result starts with a kept character, which TrimRight cannot strip
      assert |l| == 0;
    }
  }

  /** Blocks of lines, consecutive blocks separated by one empty line. */
  function JoinBlocks(blocks: seq<seq<string>>): (lines: seq<string>)
    ensures |blocks| == 0 ==> lines == []
    ensures |blocks| > 0 && |blocks[0]| > 0 ==> |lines| > 0 && lines[0] == blocks[0][0]
  {
    if |blocks| == 0 then []
    else if |blocks| == 1 then blocks[0]
    else blocks[0] + [""] + JoinBlocks(blocks[1..])
  }

  ghost predicate NoBlankLine(lines: seq<string>)
  {
    forall i :: 0 <= i < |lines| ==> lines[i] != ""
  }

  /** No empty line at either end and never two empty lines in a row. */
  ghost predicate WellSeparated(lines: seq<string>)
  {
    && (|lines| > 0 ==> lines[0] != "" && lines[|lines| - 1] != "")
    && forall i :: 0 <= i < |lines| - 1 ==> lines[i] != "" || lines[i + 1] != ""
  }

  lemma SeparatedConcat(a: seq<string>, b: seq<string>)
    requires |a| > 0 && |b| > 0
    requires WellSeparated(a) && WellSeparated(b)
    ensures WellSeparated(a + [""] + b)
  {
    var c := a + [""] + b;
    forall i | 0 <= i < |c| - 1 ensures c[i] != "" || c[i + 1] != "" {
      if i < |a| - 1 {
        assert c[i] == a[i] && c[i + 1] == a[i + 1];
      } else if i == |a| - 1 {
        assert c[i] == a[|a| - 1];
      } else if i == |a| {
        assert c[i + 1] == b[0];
      } else {
        assert c[i] == b[i - |a| - 1] && c[i + 1] == b[i - |a|];
      }
    }
  }

  /** Joining non-empty, well-separated blocks keeps them well separated. */
  lemma {:induction false} JoinBlocksSeparated(blocks: seq<seq<string>>)
    requires forall i :: 0 <= i < |blocks| ==> |blocks[i]| > 0 && WellSeparated(blocks[i])
    ensures WellSeparated(JoinBlocks(blocks))
    ensures |blocks| > 0 ==> |JoinBlocks(blocks)| > 0
  {
    if |blocks| > 1 {
      JoinBlocksSeparated(blocks[1..]);
      SeparatedConcat(blocks[0], JoinBlocks(blocks[1..]));
    }
  }

  lemma {:induction false} JoinBlocksNoNewlines(blocks: seq<seq<string>>)
    requires forall i :: 0 <= i < |blocks| ==> NoNewlines(blocks[i])
    ensures NoNewlines(JoinBlocks(blocks))
  {
    if |blocks| > 1 {
      JoinBlocksNoNewlines(blocks[1..]);
      var r := JoinBlocks(blocks[1..]);
      var c := blocks[0] + [""] + r;
      forall i | 0 <= i < |c| ensures '\n' !in c[i] {
        if i < |blocks[0]| {
          assert c[i] == blocks[0][i];
        } else if i > |blocks[0]| {
          assert c[i] == r[i - |blocks[0]| - 1];
        }
      }
    }
  }

  lemma NoBlankIsSeparated(lines: seq<string>)
    requires NoBlankLine(lines)
    ensures WellSeparated(lines)
  {
  }
}
