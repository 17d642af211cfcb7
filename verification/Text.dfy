/** Strings as the Python source handles them: `str.strip`, `str.splitlines`
    (after the universal-newline translation of `read_text`) and `"\n".join`. */
module Text {
  datatype Option<+T> = None | Some(value: T)

  /** The characters `str.splitlines` ends a line at. */
  predicate IsBreak(c: char) {
    var n := c as int;
    10 <= n <= 13 || 28 <= n <= 30 || n == 0x85 || n == 0x2028 || n == 0x2029
  }

  /** The characters `str.strip` removes. */
  predicate IsSpace(c: char) {
    var n := c as int;
    IsBreak(c) || n == 9 || n == 31 || n == 32 || n == 0xa0 || n == 0x1680 || 0x2000 <= n <= 0x200a
    || n == 0x202f || n == 0x205f || n == 0x3000
  }

  /** One by one: the ten line breaks, and the fifteen other characters that count as space. */
  lemma BreaksAndSpaces(c: char)
    ensures IsBreak(c) <==> c in "\n\U{0B}\U{0C}\r\U{1C}\U{1D}\U{1E}\U{85}\U{2028}\U{2029}"
    ensures IsSpace(c) <==>
      || IsBreak(c) || c in "\t\U{1F} \U{A0}\U{1680}\U{202F}\U{205F}\U{3000}"
      || c in "\U{2000}\U{2001}\U{2002}\U{2003}\U{2004}\U{2005}\U{2006}\U{2007}\U{2008}\U{2009}\U{200A}"
  {}

  ghost predicate NoBreak(s: string) {
    forall i :: 0 <= i < |s| ==> !IsBreak(s[i])
  }

  ghost predicate NoBreaks(lines: seq<string>) {
    forall i :: 0 <= i < |lines| ==> NoBreak(lines[i])
  }

  ghost predicate Stripped(s: string) {
    s == "" || (!IsSpace(s[0]) && !IsSpace(s[|s| - 1]))
  }

  function LStrip(s: string): string {
    if s != "" && IsSpace(s[0]) then LStrip(s[1..]) else s
  }

  function RStrip(s: string): string {
    if s != "" && IsSpace(s[|s| - 1]) then RStrip(s[..|s| - 1]) else s
  }

  function Strip(s: string): string {
    RStrip(LStrip(s))
  }

  lemma {:induction false} LStripCuts(s: string)
    ensures |LStrip(s)| <= |s| && LStrip(s) == s[|s| - |LStrip(s)|..]
    ensures LStrip(s) == "" || !IsSpace(LStrip(s)[0])
  {
    if s != "" && IsSpace(s[0]) {
      LStripCuts(s[1..]);
    }
  }

  lemma {:induction false} RStripCuts(s: string)
    ensures |RStrip(s)| <= |s| && RStrip(s) == s[..|RStrip(s)|]
    ensures RStrip(s) == "" || !IsSpace(RStrip(s)[|RStrip(s)| - 1])
    ensures forall i :: 0 <= i < |s| && !IsSpace(s[i]) ==> i < |RStrip(s)|
  {
    if s != "" && IsSpace(s[|s| - 1]) {
      RStripCuts(s[..|s| - 1]);
    }
  }

  lemma StripCuts(s: string) returns (i: nat, j: nat)
    ensures i <= j <= |s| && Strip(s) == s[i..j]
    ensures Stripped(Strip(s))
    ensures s != "" && !IsSpace(s[0]) ==> i == 0 && j > 0
  {
    LStripCuts(s);
    RStripCuts(LStrip(s));
    i := |s| - |LStrip(s)|;
    j := i + |Strip(s)|;
    assert Strip(s) == LStrip(s)[..|Strip(s)|] == s[i..j];
    if Strip(s) != "" {
      assert Strip(s)[0] == LStrip(s)[0];
    }
  }

  ghost predicate AllSpace(s: string) {
    forall i :: 0 <= i < |s| ==> IsSpace(s[i])
  }

  lemma {:induction false} LStripParts(s: string) returns (left: string)
    ensures s == left + LStrip(s) && AllSpace(left)
  {
    left := "";
    if s != "" && IsSpace(s[0]) {
      var rest := LStripParts(s[1..]);
      left := [s[0]] + rest;
    }
  }

  lemma {:induction false} RStripParts(s: string) returns (right: string)
    ensures s == RStrip(s) + right && AllSpace(right)
  {
    right := "";
    if s != "" && IsSpace(s[|s| - 1]) {
      var rest := RStripParts(s[..|s| - 1]);
      right := rest + [s[|s| - 1]];
    }
  }

  /** `strip` cuts off the whitespace at both ends, all of it, and nothing else. */
  lemma StripExactly(s: string) returns (left: string, right: string)
    ensures s == left + Strip(s) + right && AllSpace(left) && AllSpace(right) && Stripped(Strip(s))
  {
    left := LStripParts(s);
    right := RStripParts(LStrip(s));
    var i, j := StripCuts(s);
    hide LStrip, RStrip, AllSpace, Stripped;
  }

  lemma StripFixed(s: string)
    requires Stripped(s)
    ensures Strip(s) == s
  {}

  /** Trailing whitespace of a text is trailing whitespace of what follows its last non-space. */
  lemma {:induction false} RStripTail(a: string, b: string)
    requires a != "" && !IsSpace(a[|a| - 1])
    ensures RStrip(a + b) == a + RStrip(b)
  {
    if b == "" {
      assert a + b == a;
    } else if IsSpace(b[|b| - 1]) {
      RStripTail(a, b[..|b| - 1]);
      assert (a + b)[..|a + b| - 1] == a + b[..|b| - 1];
    }
  }

  /** Position of the first character satisfying IsBreak, or the length. */
  function FirstBreak(s: string): (n: nat)
    ensures n <= |s|
  {
    if s == "" || IsBreak(s[0]) then 0 else 1 + FirstBreak(s[1..])
  }

  lemma {:induction false} FirstBreakFacts(s: string)
    ensures forall i :: 0 <= i < FirstBreak(s) ==> !IsBreak(s[i])
    ensures FirstBreak(s) < |s| ==> IsBreak(s[FirstBreak(s)])
  {
    if s != "" && !IsBreak(s[0]) {
      FirstBreakFacts(s[1..]);
    }
  }

  /** A carriage return followed by a line feed is one line end. */
  function BreakWidth(s: string, n: nat): nat
    requires n < |s|
  {
    if s[n] == '\r' && n + 1 < |s| && s[n + 1] == '\n' then 2 else 1
  }

  function SplitLines(s: string): seq<string>
    decreases |s|
  {
    if s == "" then [] else
      var n := FirstBreak(s);
      if n == |s| then [s] else [s[..n]] + SplitLines(s[n + BreakWidth(s, n)..])
  }

  lemma {:induction false} SplitNoBreaks(s: string)
    ensures NoBreaks(SplitLines(s))
    decreases |s|
  {
    FirstBreakFacts(s);
    var n := FirstBreak(s);
    if n < |s| {
      SplitNoBreaks(s[n + BreakWidth(s, n)..]);
    }
  }

  /** Every line followed by a line feed. */
  function Unlines(lines: seq<string>): string {
    if lines == [] then "" else lines[0] + "\n" + Unlines(lines[1..])
  }

  /** `"\n".join(lines) + "\n"`, which is one line feed when there are no lines. */
  function JoinLines(lines: seq<string>): string {
    if lines == [] then "\n" else Unlines(lines)
  }

  lemma {:induction false} FirstBreakIs(s: string, n: nat)
    requires n < |s| && IsBreak(s[n]) && forall i :: 0 <= i < n ==> !IsBreak(s[i])
    ensures FirstBreak(s) == n
  {
    if n > 0 {
      FirstBreakIs(s[1..], n - 1);
    }
  }

  lemma SplitEmpty()
    ensures SplitLines("") == []
  {}

  lemma SplitFirst(s: string)
    requires FirstBreak(s) < |s|
    ensures var n := FirstBreak(s); SplitLines(s) == [s[..n]] + SplitLines(s[n + BreakWidth(s, n)..])
  {
    hide FirstBreak, IsBreak, BreakWidth;
  }

  /** A line ends at the first break in the text; a carriage return takes the line feed right
      behind it along, any other break stands alone. */
  lemma SplitAtBreak(line: string, br: string, rest: string)
    requires NoBreak(line) && (br == "\r\n" || (|br| == 1 && IsBreak(br[0]) && !(br == "\r" && "\n" <= rest)))
    ensures SplitLines(line + br + rest) == [line] + SplitLines(rest)
    ensures SplitLines(line) == if line == "" then [] else [line]
  {
    var s, n := line + br + rest, |line|;
    FirstBreakFacts(s);
    FirstBreakFacts(line);
    assert IsBreak(br[0]) && s[n] == br[0] && forall i :: 0 <= i < n ==> s[i] == line[i];
    assert n + 1 < |s| ==> s[n + 1] == if |br| == 2 then br[1] else rest[0];
    hide FirstBreak, IsBreak;
    assert FirstBreak(s) == n && s[..n] == line && s[n + |br|..] == rest;
  }

  lemma SameFirstBreak(x: string, y: string)
    ensures FirstBreak(x + "\n" + y) == FirstBreak(x + "\n") <= |x|
  {
    var a, b := x + "\n" + y, x + "\n";
    FirstBreakFacts(b);
    assert IsBreak(b[|x|]);
    hide IsBreak, FirstBreak;
    assert forall i :: 0 <= i <= |x| ==> a[i] == b[i];
    FirstBreakIs(a, FirstBreak(b));
  }

  lemma SameWidth(x: string, y: string, n: nat)
    requires n <= |x|
    ensures BreakWidth(x + "\n" + y, n) == BreakWidth(x + "\n", n) <= |x| + 1 - n
    ensures (x + "\n" + y)[..n] == (x + "\n")[..n]
  {}

  /** Where the first line of a text ending in a line feed ends, more text behind it changes nothing. */
  lemma SplitHead(x: string, y: string) returns (k: nat)
    ensures 0 < k <= |x| + 1
    ensures SplitLines(x + "\n" + y) == [(x + "\n")[..FirstBreak(x + "\n")]] + SplitLines((x + "\n" + y)[k..])
    ensures SplitLines(x + "\n") == [(x + "\n")[..FirstBreak(x + "\n")]] + SplitLines((x + "\n")[k..])
  {
    hide SplitLines, FirstBreak, IsBreak;
    var a, b := x + "\n" + y, x + "\n";
    var n := FirstBreak(b);
    SameFirstBreak(x, y);
    SameWidth(x, y, n);
    k := n + BreakWidth(b, n);
    SplitFirst(a);
    SplitFirst(b);
  }

  /** A line feed always completes a line, whatever stands before or after it. */
  lemma {:induction false} SplitAtNewline(x: string, y: string)
    ensures SplitLines(x + "\n" + y) == SplitLines(x + "\n") + SplitLines(y)
    decreases |x|
  {
    hide IsBreak, FirstBreak, BreakWidth;
    var k := SplitHead(x, y);
    var a, b := x + "\n" + y, x + "\n";
    var head := [b[..FirstBreak(b)]];
    var ra, rb, sy := SplitLines(a[k..]), SplitLines(b[k..]), SplitLines(y);
    assert ra == rb + sy by {
      if k == |b| {
        assert a[k..] == y && b[k..] == "";
        EmptyLeft(rb, sy);
      } else {
        assert a[k..] == x[k..] + "\n" + y;
        assert b[k..] == x[k..] + "\n";
        SplitAtNewline(x[k..], y);
      }
    }
    Assoc(head, rb, sy);
  }

  lemma EmptyLeft(a: seq<string>, b: seq<string>)
    requires a == []
    ensures a + b == b
  {}

  lemma Assoc(a: seq<string>, b: seq<string>, c: seq<string>)
    ensures a + (b + c) == a + b + c
  {}

  lemma {:induction false} SplitOneLine(l: string)
    requires NoBreak(l)
    ensures SplitLines(l + "\n") == [l]
  {
    FirstBreakIs(l + "\n", |l|);
    SplitFirst(l + "\n");
    assert (l + "\n")[..|l|] == l;
    assert (l + "\n")[|l| + 1..] == "";
  }

  /** Splitting what was written line by line distributes over the lines,
      even when some of them contain line breaks. */
  lemma {:induction false} SplitUnlinesConcat(a: seq<string>, b: seq<string>)
    ensures SplitLines(Unlines(a + b)) == SplitLines(Unlines(a)) + SplitLines(Unlines(b))
  {
    hide SplitLines;
    if a == [] {
      assert a + b == b;
      assert SplitLines("") == [] by { SplitEmpty(); }
    } else {
      var h, u, v := SplitLines(a[0] + "\n"), SplitLines(Unlines(a[1..])), SplitLines(Unlines(b));
      assert SplitLines(Unlines(a + b)) == h + SplitLines(Unlines(a[1..] + b)) by {
        assert (a + b)[0] == a[0] && (a + b)[1..] == a[1..] + b;
        SplitAtNewline(a[0], Unlines(a[1..] + b));
      }
      assert SplitLines(Unlines(a)) == h + u by { SplitAtNewline(a[0], Unlines(a[1..])); }
      assert SplitLines(Unlines(a[1..] + b)) == u + v by { SplitUnlinesConcat(a[1..], b); }
      assert h + (u + v) == h + u + v;
    }
  }

  /** Round trip: lines without line breaks come back as they were written. */
  lemma {:induction false} SplitUnlines(lines: seq<string>)
    requires NoBreaks(lines)
    ensures SplitLines(Unlines(lines)) == lines
  {
    SplitEmpty();
    hide SplitLines;
    if lines != [] {
      SplitUnlines(lines[1..]);
      SplitAtNewline(lines[0], Unlines(lines[1..]));
      SplitOneLine(lines[0]);
    }
  }
}
