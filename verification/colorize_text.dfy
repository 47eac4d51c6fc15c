/** The text preparation of `Parser` in colorize-py/colorize.py: the source is
    tab-expanded and stripped on construction, and `output` builds the table of
    row-start offsets the token handler positions tokens with. */
module ColorizeText {

  /** `str.expandtabs()`'s default tab size. */
  const TabSize: nat := 8

  /** The characters `str.strip()` removes (Python 2 byte strings). */
  predicate IsSpace(c: char) {
    c == ' ' || c == '\t' || c == '\n' || c == '\r' || c == '\U{000B}' || c == '\U{000C}'
  }

  function Spaces(n: nat): (r: string)
    ensures |r| == n && forall i :: 0 <= i < n ==> r[i] == ' '
  {
    if n == 0 then "" else Spaces(n - 1) + " "
  }

  /** `expandtabs` with the column counter at `col`: a tab becomes the spaces up to
      the next multiple of the tab size; a line break resets the column. */
  function ExpandFrom(s: string, col: nat): (r: string)
    ensures forall i :: 0 <= i < |r| ==> r[i] != '\t'
    ensures |r| >= |s|
    decreases |s|
  {
    if |s| == 0 then ""
    else if s[0] == '\t' then
      var n := TabSize - col % TabSize;
      Spaces(n) + ExpandFrom(s[1..], col + n)
    else
      [s[0]] + ExpandFrom(s[1..], if s[0] == '\n' || s[0] == '\r' then 0 else col + 1)
  }

  /** The spaces a tab at column `a` becomes reach the next tab stop. */
  lemma TabWidth(a: nat)
    ensures var n := TabSize - a % TabSize; 1 <= n <= TabSize && (a + n) % TabSize == 0
  {
  }

  /** A tab after a run of `s` on one line (no line break in `s`) is replaced by
      one to `TabSize` spaces, ending exactly at the next multiple of the tab size
      counted from the column where `s` started. */
  lemma ExpandTabStop(s: string, col: nat)
    requires forall i :: 0 <= i < |s| ==> s[i] != '\n' && s[i] != '\r'
    ensures var e := ExpandFrom(s, col);
            var n := TabSize - (col + |e|) % TabSize;
            ExpandFrom(s + "\t", col) == e + Spaces(n) &&
            1 <= n <= TabSize && (col + |e| + n) % TabSize == 0
  {
    ExpandBeforeTab(s, col);
    TabWidth(col + |ExpandFrom(s, col)|);
  }

  lemma {:induction false} ExpandBeforeTab(s: string, col: nat)
    requires forall i :: 0 <= i < |s| ==> s[i] != '\n' && s[i] != '\r'
    ensures ExpandFrom(s + "\t", col) == ExpandFrom(s, col) + Spaces(TabSize - (col + |ExpandFrom(s, col)|) % TabSize)
    decreases |s|
  {
    var t := s + "\t";
    if |s| == 0 {
      assert t == "\t";
      assert t[1..] == "";
    } else {
      assert t[0] == s[0];
      assert t[1..] == s[1..] + "\t";
      var next := if s[0] == '\t' then col + (TabSize - col % TabSize) else col + 1;
      var head := if s[0] == '\t' then Spaces(TabSize - col % TabSize) else [s[0]];
      assert ExpandFrom(s, col) == head + ExpandFrom(s[1..], next);
      assert ExpandFrom(t, col) == head + ExpandFrom(s[1..] + "\t", next);
      ExpandBeforeTab(s[1..], next);
      var e1 := ExpandFrom(s[1..], next);
      assert col + |head| + |e1| == next + |e1|;
      assert head + (e1 + Spaces(TabSize - (next + |e1|) % TabSize))
          == (head + e1) + Spaces(TabSize - (next + |e1|) % TabSize);
    }
  }

  function ExpandTabs(s: string): string {
    ExpandFrom(s, 0)
  }

  function StripLeading(s: string): (r: string)
    ensures |r| <= |s| && r == s[|s| - |r|..]
    ensures |r| > 0 ==> !IsSpace(r[0])
    ensures forall i :: 0 <= i < |s| - |r| ==> IsSpace(s[i])
    decreases |s|
  {
    if |s| > 0 && IsSpace(s[0]) then StripLeading(s[1..]) else s
  }

  function StripTrailing(s: string): (r: string)
    ensures |r| <= |s| && r == s[..|r|]
    ensures |r| > 0 ==> !IsSpace(r[|r| - 1])
    ensures forall i :: |r| <= i < |s| ==> IsSpace(s[i])
    decreases |s|
  {
    if |s| > 0 && IsSpace(s[|s| - 1]) then StripTrailing(s[..|s| - 1]) else s
  }

  /** `string.strip(string.expandtabs(raw))`, the text `Parser.__init__` keeps. */
  function Normalize(raw: string): string {
    StripTrailing(StripLeading(ExpandTabs(raw)))
  }

  /** The characters of `s` that are not whitespace, in order. */
  function Visible(s: string): string
    decreases |s|
  {
    if |s| == 0 then "" else (if IsSpace(s[0]) then "" else [s[0]]) + Visible(s[1..])
  }

  lemma {:induction false} VisibleAppend(a: string, b: string)
    ensures Visible(a + b) == Visible(a) + Visible(b)
    decreases |a|
  {
    if |a| > 0 {
      assert (a + b)[0] == a[0];
      assert (a + b)[1..] == a[1..] + b;
      VisibleAppend(a[1..], b);
    } else {
      assert a + b == b;
    }
  }

  lemma {:induction false} VisibleOfSpaces(s: string)
    requires forall i :: 0 <= i < |s| ==> IsSpace(s[i])
    ensures Visible(s) == ""
    decreases |s|
  {
    if |s| > 0 {
      VisibleOfSpaces(s[1..]);
    }
  }

  lemma {:induction false} ExpandKeepsVisible(s: string, col: nat)
    ensures Visible(ExpandFrom(s, col)) == Visible(s)
    decreases |s|
  {
    if |s| > 0 {
      if s[0] == '\t' {
        var n := TabSize - col % TabSize;
        VisibleAppend(Spaces(n), ExpandFrom(s[1..], col + n));
        VisibleOfSpaces(Spaces(n));
        ExpandKeepsVisible(s[1..], col + n);
      } else {
        var col' := if s[0] == '\n' || s[0] == '\r' then 0 else col + 1;
        VisibleAppend([s[0]], ExpandFrom(s[1..], col'));
        ExpandKeepsVisible(s[1..], col');
      }
    }
  }

  /** Dropping leading whitespace keeps the visible characters. */
  lemma StripLeadingKeepsVisible(s: string)
    ensures Visible(StripLeading(s)) == Visible(s)
  {
    var l := StripLeading(s);
    assert s == s[..|s| - |l|] + l;
    VisibleAppend(s[..|s| - |l|], l);
    VisibleOfSpaces(s[..|s| - |l|]);
  }

  /** Dropping trailing whitespace keeps the visible characters. */
  lemma StripTrailingKeepsVisible(s: string)
    ensures Visible(StripTrailing(s)) == Visible(s)
  {
    var t := StripTrailing(s);
    assert s == t + s[|t|..];
    VisibleAppend(t, s[|t|..]);
    VisibleOfSpaces(s[|t|..]);
  }

  /** The stored text has no tab and no surrounding whitespace, and it keeps every
      non-whitespace character of the raw text, in order. */
  lemma NormalizeShape(raw: string)
    ensures var t := Normalize(raw);
            (forall i :: 0 <= i < |t| ==> t[i] != '\t') &&
            (|t| > 0 ==> !IsSpace(t[0]) && !IsSpace(t[|t| - 1])) &&
            Visible(t) == Visible(raw)
  {
    var e := ExpandTabs(raw);
    var l := StripLeading(e);
    var t := StripTrailing(l);
    ExpandKeepsVisible(raw, 0);
    StripLeadingKeepsVisible(e);
    StripTrailingKeepsVisible(l);
    forall i | 0 <= i < |t|
      ensures t[i] != '\t'
    {
      assert t[i] == l[i] == e[|e| - |l| + i];
    }
    if |t| > 0 {
      assert t[0] == l[0];
    }
  }

  // ---------------------------------------------------------------------------
  // The line table

  /** `string.find(s, c, start)`: the first index at or after `start` holding `c`, or -1. */
  function Find(s: string, c: char, start: nat): (r: int)
    requires start <= |s|
    ensures r == -1 || (start <= r < |s| && s[r] == c)
    ensures forall i :: start <= i < (if r == -1 then |s| else r) ==> s[i] != c
    decreases |s| - start
  {
    if start == |s| then -1
    else if s[start] == c then start
    else Find(s, c, start + 1)
  }

  /** `off` is the offset just after a line break of `raw`. */
  predicate EndsLine(raw: string, off: int) {
    1 <= off <= |raw| && raw[off - 1] == '\n'
  }

  /** The offsets just after each line break of `raw` at or after `from`, in order. */
  function BreakEnds(raw: string, from: nat): seq<nat>
    decreases |raw| - from
  {
    if from >= |raw| then []
    else if raw[from] == '\n' then [from + 1] + BreakEnds(raw, from + 1)
    else BreakEnds(raw, from + 1)
  }

  /** One search from `pos` finds the first remaining break, or shows there is none. */
  lemma {:induction false} FindNextBreak(raw: string, pos: nat)
    requires pos <= |raw|
    ensures var f := Find(raw, '\n', pos);
            if f == -1 then BreakEnds(raw, pos) == []
            else f >= pos && BreakEnds(raw, pos) == [f + 1] + BreakEnds(raw, f + 1)
    decreases |raw| - pos
  {
    if pos < |raw| && raw[pos] != '\n' {
      FindNextBreak(raw, pos + 1);
    }
  }

  /** The table `output` builds: `[0, 0]`, then the offset just after each line
      break in order, then `len(raw)`. */
  method LineTable(raw: string) returns (lines: seq<nat>)
    ensures lines == [0, 0] + BreakEnds(raw, 0) + [|raw|]
  {
    lines := [0, 0];
    var pos: nat := 0;
    while true
      invariant pos <= |raw|
      invariant lines + BreakEnds(raw, pos) == [0, 0] + BreakEnds(raw, 0)
      decreases |raw| - pos
    {
      var found := Find(raw, '\n', pos);
      FindNextBreak(raw, pos);
      if found == -1 {
        break;
      }
      pos := found + 1;
      lines := lines + [pos];
    }
    lines := lines + [|raw|];
  }

  /** Every entry of `BreakEnds` follows a line break, and the entries increase. */
  lemma {:induction false} BreakEndsSound(raw: string, from: nat)
    ensures forall k :: 0 <= k < |BreakEnds(raw, from)| ==>
              EndsLine(raw, BreakEnds(raw, from)[k]) && BreakEnds(raw, from)[k] > from
    ensures forall k, m :: 0 <= k < m < |BreakEnds(raw, from)| ==> BreakEnds(raw, from)[k] < BreakEnds(raw, from)[m]
    decreases |raw| - from
  {
    if from < |raw| {
      BreakEndsSound(raw, from + 1);
    }
  }

  /** Every line break at or after `from` is recorded. */
  lemma {:induction false} BreakEndsComplete(raw: string, from: nat)
    ensures forall i :: from <= i < |raw| && raw[i] == '\n' ==> i + 1 in BreakEnds(raw, from)
    decreases |raw| - from
  {
    if from < |raw| {
      BreakEndsComplete(raw, from + 1);
    }
  }

  /** Reading the finished table by 1-based row: `lines[1]` is 0, every later row
      start `lines[r]` (before the closing `len(raw)`) follows a line break, the row
      starts increase, and every line break starts a row. */
  lemma RowStarts(raw: string)
    ensures var lines := [0, 0] + BreakEnds(raw, 0) + [|raw|];
            lines[1] == 0 && lines[|lines| - 1] == |raw| &&
            (forall r :: 2 <= r < |lines| - 1 ==> EndsLine(raw, lines[r])) &&
            (forall r, q :: 2 <= r < q < |lines| - 1 ==> lines[r] < lines[q]) &&
            (forall i :: 0 <= i < |raw| && raw[i] == '\n' ==> i + 1 in lines[2..|lines| - 1])
  {
    var b := BreakEnds(raw, 0);
    var lines := [0, 0] + b + [|raw|];
    BreakEndsSound(raw, 0);
    BreakEndsComplete(raw, 0);
    assert lines[2..|lines| - 1] == b;
    assert forall r :: 2 <= r < |lines| - 1 ==> lines[r] == b[r - 2];
  }
}
