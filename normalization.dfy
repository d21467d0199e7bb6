/**
 * How the tests turn an expected document into the string they compare
 * against: `content.split("\n").map(|s| s.trim()).collect::<String>()`,
 * i.e. cut at every line feed, strip each piece's leading and trailing
 * whitespace, and glue the pieces back together with nothing between them.
 */
module Normalization {
  import opened Strings

  /** Rust's `char::is_whitespace`: the Unicode White_Space characters. */
  predicate IsWhitespace(c: char)
  {
    || '\t' <= c <= '\r'
    || c == ' '
    || c == '\U{0085}'
    || c == '\U{00A0}'
    || c == '\U{1680}'
    || '\U{2000}' <= c <= '\U{200A}'
    || c == '\U{2028}'
    || c == '\U{2029}'
    || c == '\U{202F}'
    || c == '\U{205F}'
    || c == '\U{3000}'
  }

  /** Among ASCII characters, space, tab, line feed and carriage return are whitespace and no visible character is. */
  lemma AsciiWhitespace(c: char)
    ensures c == ' ' || c == '\t' || c == '\n' || c == '\r' ==> IsWhitespace(c)
    ensures '!' <= c <= '~' ==> !IsWhitespace(c)
  {
  }

  /** Starts and ends with something other than whitespace (or is empty). */
  predicate Unpadded(s: string)
  {
    s != [] ==> !IsWhitespace(s[0]) && !IsWhitespace(s[|s| - 1])
  }

  predicate NoLineFeed(s: string)
  {
    forall k | 0 <= k < |s| :: s[k] != '\n'
  }

  /** How many whitespace characters `s` starts with. */
  function LeadingBlanks(s: string): (n: nat)
    ensures n <= |s|
    ensures forall k | 0 <= k < n :: IsWhitespace(s[k])
    ensures n < |s| ==> !IsWhitespace(s[n])
  {
    if s != [] && IsWhitespace(s[0]) then
      var m := LeadingBlanks(s[1..]);
      assert forall k | 1 <= k <= m :: s[k] == s[1..][k - 1];
      1 + m
    else 0
  }

  /** Where the whitespace that `s` ends with begins. */
  function TrailingStart(s: string): (n: nat)
    ensures n <= |s|
    ensures forall k | n <= k < |s| :: IsWhitespace(s[k])
    ensures n > 0 ==> !IsWhitespace(s[n - 1])
  {
    if s != [] && IsWhitespace(s[|s| - 1]) then TrailingStart(s[..|s| - 1]) else |s|
  }

  /** `str::trim_start`: the longest suffix that does not start with whitespace. */
  function TrimStart(s: string): (r: string)
    ensures |r| <= |s| && r == s[|s| - |r|..]
    ensures forall k | 0 <= k < |s| - |r| :: IsWhitespace(s[k])
    ensures r != [] ==> !IsWhitespace(r[0])
  {
    s[LeadingBlanks(s)..]
  }

  /** `str::trim_end`: the longest prefix that does not end with whitespace. */
  function TrimEnd(s: string): (r: string)
    ensures |r| <= |s| && r == s[..|r|]
    ensures forall k | |r| <= k < |s| :: IsWhitespace(s[k])
    ensures r != [] ==> !IsWhitespace(r[|r| - 1])
  {
    s[..TrailingStart(s)]
  }

  /** `str::trim`: what is left once whitespace is stripped from both ends (see TrimIsSlice). */
  function Trim(s: string): (r: string)
    ensures Unpadded(r)
  {
    TrimIsUnpadded(s);
    TrimEnd(TrimStart(s))
  }

  /**
   * Trim keeps one contiguous slice of its input and strips only whitespace
   * in front of it and behind it.
   */
  lemma TrimIsSlice(s: string)
    ensures |s| - |TrimStart(s)| + |Trim(s)| <= |s|
    ensures Trim(s) == s[|s| - |TrimStart(s)|..|s| - |TrimStart(s)| + |Trim(s)|]
    ensures forall k | 0 <= k < |s| - |TrimStart(s)| :: IsWhitespace(s[k])
    ensures forall k | |s| - |TrimStart(s)| + |Trim(s)| <= k < |s| :: IsWhitespace(s[k])
  {
  }

  lemma TrimIsUnpadded(s: string)
    ensures Unpadded(TrimEnd(TrimStart(s)))
  {
    var t := TrimStart(s);
    var r := TrimEnd(t);
    if r != [] {
      assert r[0] == t[0];
    }
  }

  /** `str::split("\n")`: the pieces between line feeds; n line feeds give n + 1 pieces. */
  function SplitLines(s: string): (r: seq<string>)
    ensures |r| >= 1
  {
    if s == [] then [""]
    else if s[0] == '\n' then [""] + SplitLines(s[1..])
    else
      var rest := SplitLines(s[1..]);
      [[s[0]] + rest[0]] + rest[1..]
  }

  /** A string without a line feed splits into itself alone. */
  lemma {:induction false} SplitOneLine(s: string)
    requires NoLineFeed(s)
    ensures SplitLines(s) == [s]
  {
    if s != [] {
      assert NoLineFeed(s[1..]) by {
        forall k | 0 <= k < |s[1..]| ensures s[1..][k] != '\n' {
          assert s[1..][k] == s[k + 1];
        }
      }
      SplitOneLine(s[1..]);
      assert [s[0]] + s[1..] == s;
    }
  }

  /** The inverse of SplitLines: the lines with a line feed between each two. */
  function JoinLines(ls: seq<string>): string
    requires |ls| >= 1
  {
    if |ls| == 1 then ls[0] else ls[0] + "\n" + JoinLines(ls[1..])
  }

  /** The trimmed lines glued together. */
  function TrimConcat(ls: seq<string>): string
  {
    if ls == [] then "" else Trim(ls[0]) + TrimConcat(ls[1..])
  }

  /** What `convert_and_validate!` compares the serializer's output with. */
  function Normalize(s: string): string
  {
    TrimConcat(SplitLines(s))
  }

  /** A one-line expectation is only trimmed. */
  lemma NormalizeOneLine(s: string)
    requires NoLineFeed(s)
    ensures Normalize(s) == Trim(s)
  {
    SplitOneLine(s);
    TrimConcatSingle(s);
  }

  lemma TrimConcatSingle(s: string)
    ensures TrimConcat([s]) == Trim(s)
  {
    assert [s][1..] == [];
    assert TrimConcat([s]) == Trim(s) + "";
  }

  // ---------------------------------------------------------------------
  // Splitting and joining lines
  // ---------------------------------------------------------------------

  /** No piece of a split contains a line feed. */
  lemma {:induction false} SplitLinesHaveNoLineFeed(s: string)
    ensures forall j | 0 <= j < |SplitLines(s)| :: NoLineFeed(SplitLines(s)[j])
  {
    if s != [] {
      SplitLinesHaveNoLineFeed(s[1..]);
      var rest := SplitLines(s[1..]);
      if s[0] != '\n' {
        var first := [s[0]] + rest[0];
        assert forall k | 1 <= k < |first| :: first[k] == rest[0][k - 1];
        var r := SplitLines(s);
        forall j | 1 <= j < |r| ensures NoLineFeed(r[j]) {
          assert r[j] == rest[j];
        }
      } else {
        var r := SplitLines(s);
        forall j | 1 <= j < |r| ensures NoLineFeed(r[j]) {
          assert r[j] == rest[j - 1];
        }
      }
    }
  }

  /** Joining the pieces of a split gives back the original text. */
  lemma {:induction false} JoinSplit(s: string)
    ensures JoinLines(SplitLines(s)) == s
  {
    if s != [] {
      JoinSplit(s[1..]);
      var rest := SplitLines(s[1..]);
      if s[0] == '\n' {
        assert SplitLines(s)[1..] == rest;
        assert JoinLines(SplitLines(s)) == "" + "\n" + s[1..];
      } else {
        var r := SplitLines(s);
        if |rest| == 1 {
          assert JoinLines(r) == [s[0]] + rest[0];
        } else {
          assert r[1..] == rest[1..];
          var tail := JoinLines(rest[1..]);
          assert s[1..] == rest[0] + "\n" + tail;
          assert JoinLines(r) == [s[0]] + rest[0] + "\n" + tail;
        }
      }
    }
  }

  /** A line without a line feed stays one piece, glued to whatever starts the rest. */
  lemma {:induction false} SplitAfterLine(line: string, rest: string)
    requires NoLineFeed(line)
    ensures SplitLines(line + rest) == [line + SplitLines(rest)[0]] + SplitLines(rest)[1..]
  {
    if line != [] {
      SplitAfterLine(line[1..], rest);
      assert (line + rest)[0] == line[0] && (line + rest)[1..] == line[1..] + rest;
      assert [line[0]] + (line[1..] + SplitLines(rest)[0]) == line + SplitLines(rest)[0];
    } else {
      var r := SplitLines(rest);
      assert line + rest == rest && line + r[0] == r[0];
      assert [r[0]] + r[1..] == r;
    }
  }

  /** Splitting lines joined with line feeds gives back the lines, when none holds a line feed. */
  lemma {:induction false} SplitJoin(ls: seq<string>)
    requires |ls| >= 1 && forall j | 0 <= j < |ls| :: NoLineFeed(ls[j])
    ensures SplitLines(JoinLines(ls)) == ls
  {
    if |ls| == 1 {
      SplitAfterLine(ls[0], "");
      assert ls[0] + "" == ls[0];
    } else {
      SplitJoin(ls[1..]);
      var tail := JoinLines(ls[1..]);
      assert JoinLines(ls) == ls[0] + ("\n" + tail);
      SplitAfterLine(ls[0], "\n" + tail);
      assert ("\n" + tail)[1..] == tail;
      assert SplitLines("\n" + tail) == [""] + ls[1..];
      assert ls[0] + "" == ls[0];
    }
  }

  // ---------------------------------------------------------------------
  // What normalisation produces
  // ---------------------------------------------------------------------

  lemma {:induction false} UnpaddedAppend(a: string, b: string)
    requires Unpadded(a) && Unpadded(b)
    ensures Unpadded(a + b)
  {
    if a != [] && b != [] {
      assert (a + b)[|a + b| - 1] == b[|b| - 1];
    } else if a == [] {
      assert a + b == b;
    } else {
      assert a + b == a;
    }
  }

  lemma NoLineFeedAppend(a: string, b: string)
    requires NoLineFeed(a) && NoLineFeed(b)
    ensures NoLineFeed(a + b)
  {
    forall k | 0 <= k < |a + b| ensures (a + b)[k] != '\n' {
      if k >= |a| {
        assert (a + b)[k] == b[k - |a|];
      }
    }
  }

  /** The trimmed lines glued together neither hold a line feed nor start or end with whitespace. */
  lemma {:induction false} TrimConcatShape(ls: seq<string>)
    requires forall j | 0 <= j < |ls| :: NoLineFeed(ls[j])
    ensures NoLineFeed(TrimConcat(ls)) && Unpadded(TrimConcat(ls))
  {
    if ls != [] {
      TrimConcatShape(ls[1..]);
      var t := Trim(ls[0]);
      assert NoLineFeed(ls[0]);
      assert NoLineFeed(t);
      NoLineFeedAppend(t, TrimConcat(ls[1..]));
      UnpaddedAppend(t, TrimConcat(ls[1..]));
    }
  }

  /** Normalised text is a single line without surrounding whitespace. */
  lemma NormalizeShape(s: string)
    ensures NoLineFeed(Normalize(s)) && Unpadded(Normalize(s))
  {
    SplitLinesHaveNoLineFeed(s);
    TrimConcatShape(SplitLines(s));
  }

  /** Trimming leaves text that neither starts nor ends with whitespace unchanged. */
  lemma TrimUnpadded(s: string)
    requires Unpadded(s)
    ensures Trim(s) == s
  {
    assert LeadingBlanks(s) == 0;
    assert TrimStart(s) == s;
    assert TrailingStart(s) == |s|;
  }

  /** A single unpadded line is its own normal form. */
  lemma NormalizeFixedPoint(s: string)
    requires NoLineFeed(s) && Unpadded(s)
    ensures Normalize(s) == s
  {
    assert JoinLines([s]) == s;
    SplitJoin([s]);
    TrimUnpadded(s);
    assert [s][1..] == [];
    assert TrimConcat([s]) == s + "" == s;
  }

  /** Normalising twice is normalising once. */
  lemma NormalizeIdempotent(s: string)
    ensures Normalize(Normalize(s)) == Normalize(s)
  {
    NormalizeShape(s);
    NormalizeFixedPoint(Normalize(s));
  }

  /** Normalising lines joined by line feeds trims each line and glues them together. */
  lemma NormalizeLines(ls: seq<string>)
    requires |ls| >= 1 && forall j | 0 <= j < |ls| :: NoLineFeed(ls[j])
    ensures Normalize(JoinLines(ls)) == TrimConcat(ls)
  {
    SplitJoin(ls);
  }

  /** Leading whitespace in front of a non-blank start is what trim_start strips. */
  lemma TrimStartPrefix(before: string, rest: string)
    requires forall k | 0 <= k < |before| :: IsWhitespace(before[k])
    requires rest != [] && !IsWhitespace(rest[0])
    ensures TrimStart(before + rest) == rest
  {
    var x := before + rest;
    assert forall k | 0 <= k < |before| :: x[k] == before[k];
    assert x[|before|] == rest[0];
    assert LeadingBlanks(x) == |before|;
    assert x[|before|..] == rest;
  }

  /** Trailing whitespace behind a non-blank end is what trim_end strips. */
  lemma TrimEndSuffix(s: string, after: string)
    requires forall k | 0 <= k < |after| :: IsWhitespace(after[k])
    requires s != [] && !IsWhitespace(s[|s| - 1])
    ensures TrimEnd(s + after) == s
  {
    var x := s + after;
    assert x[|s| - 1] == s[|s| - 1];
    assert forall k | |s| <= k < |x| :: x[k] == after[k - |s|];
    assert TrailingStart(x) == |s|;
    assert x[..|s|] == s;
  }

  /** Indentation in front of and after an unpadded line is stripped. */
  lemma TrimIndented(before: string, s: string, after: string)
    requires forall k | 0 <= k < |before| :: IsWhitespace(before[k])
    requires forall k | 0 <= k < |after| :: IsWhitespace(after[k])
    requires Unpadded(s) && s != []
    ensures Trim(before + s + after) == s
  {
    assert before + s + after == before + (s + after);
    assert (s + after)[0] == s[0];
    TrimStartPrefix(before, s + after);
    TrimEndSuffix(s, after);
  }

  /** A line of nothing but whitespace trims to nothing. */
  lemma TrimBlank(s: string)
    requires forall k | 0 <= k < |s| :: IsWhitespace(s[k])
    ensures Trim(s) == ""
  {
    assert TrimStart(s) == [];
  }

  /** Lines of a raw string literal: each is some indentation followed by a line of text. */
  function Indented(indents: seq<string>, texts: seq<string>): (ls: seq<string>)
    requires |indents| == |texts|
    ensures |ls| == |texts|
    ensures forall j | 0 <= j < |ls| :: ls[j] == indents[j] + texts[j]
  {
    if texts == [] then [] else [indents[0] + texts[0]] + Indented(indents[1..], texts[1..])
  }

  predicate Blank(s: string)
  {
    forall k | 0 <= k < |s| :: IsWhitespace(s[k]) && s[k] != '\n'
  }

  /**
   * An indented multi-line text normalises to its lines' texts glued
   * together, whatever the indentation.
   */
  lemma {:induction false} TrimIndentedLines(indents: seq<string>, texts: seq<string>)
    requires |indents| == |texts|
    requires forall j | 0 <= j < |texts| :: Blank(indents[j]) && Unpadded(texts[j])
    ensures TrimConcat(Indented(indents, texts)) == Concat(texts)
  {
    if texts != [] {
      var ls := Indented(indents, texts);
      assert ls[1..] == Indented(indents[1..], texts[1..]);
      TrimIndentedLines(indents[1..], texts[1..]);
      assert Blank(indents[0]);
      if texts[0] == [] {
        assert ls[0] == indents[0];
        TrimBlank(indents[0]);
      } else {
        assert ls[0] == indents[0] + texts[0] + "";
        TrimIndented(indents[0], texts[0], "");
      }
    }
  }

  lemma NormalizeIndented(indents: seq<string>, texts: seq<string>)
    requires |indents| == |texts| >= 1
    requires forall j | 0 <= j < |texts| :: Blank(indents[j]) && Unpadded(texts[j]) && NoLineFeed(texts[j])
    ensures Normalize(JoinLines(Indented(indents, texts))) == Concat(texts)
  {
    var ls := Indented(indents, texts);
    forall j | 0 <= j < |ls|
      ensures NoLineFeed(ls[j])
    {
      assert Blank(indents[j]);
      NoLineFeedAppend(indents[j], texts[j]);
    }
    NormalizeLines(ls);
    TrimIndentedLines(indents, texts);
  }
}
