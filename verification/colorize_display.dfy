/** What a browser shows of the colorizer's output: the markup the handler of
    colorize-py/colorize.py writes is tags around escaped text, so dropping the
    tags and decoding the entities must give back the source. */
module ColorizeDisplay {
  import opened Py
  import opened ColorizeText
  import opened Colorize

  // ---------------------------------------------------------------------------
  // Tags

  /** The text after the first `>` of `s`, or nothing when there is none. */
  function AfterTag(s: string): (r: string)
    ensures |r| <= |s|
    decreases |s|
  {
    if |s| == 0 then "" else if s[0] == '>' then s[1..] else AfterTag(s[1..])
  }

  /** The displayed characters of `s`: everything from a `<` to the next `>` is a
      tag and is dropped. */
  function TagFree(s: string): string
    decreases |s|
  {
    if |s| == 0 then ""
    else if s[0] == '<' then TagFree(AfterTag(s[1..]))
    else [s[0]] + TagFree(s[1..])
  }

  /** Every tag opened in `s` is closed in `s`. */
  predicate Closed(s: string)
    decreases |s|
  {
    |s| == 0 ||
    if s[0] == '<' then '>' in s[1..] && Closed(AfterTag(s[1..])) else Closed(s[1..])
  }

  /** Text after a closed tag is not part of the tag. */
  lemma {:induction false} AfterTagAppend(s: string, b: string)
    requires '>' in s
    ensures AfterTag(s + b) == AfterTag(s) + b
    decreases |s|
  {
    assert (s + b)[0] == s[0] && (s + b)[1..] == s[1..] + b;
    if s[0] != '>' {
      AfterTagAppend(s[1..], b);
    }
  }

  /** A tag whose inside has no `>` ends at the first `>`. */
  lemma {:induction false} TagSkip(inner: string, rest: string)
    requires '>' !in inner
    ensures AfterTag(inner + ">" + rest) == rest
    decreases |inner|
  {
    var s := inner + ">" + rest;
    if |inner| == 0 {
      assert s == ">" + rest && s[1..] == rest;
    } else {
      assert s[0] == inner[0] && s[1..] == inner[1..] + ">" + rest;
      TagSkip(inner[1..], rest);
    }
  }

  /** Displaying a concatenation whose first part is closed displays the parts. */
  lemma {:induction false} TagFreeAppend(a: string, b: string)
    requires Closed(a)
    ensures TagFree(a + b) == TagFree(a) + TagFree(b)
    decreases |a|
  {
    if |a| == 0 {
      assert a + b == b;
    } else {
      assert (a + b)[0] == a[0] && (a + b)[1..] == a[1..] + b;
      if a[0] == '<' {
        AfterTagAppend(a[1..], b);
        TagFreeAppend(AfterTag(a[1..]), b);
      } else {
        TagFreeAppend(a[1..], b);
      }
    }
  }

  /** Closed text followed by closed text is closed. */
  lemma {:induction false} ClosedAppend(a: string, b: string)
    requires Closed(a) && Closed(b)
    ensures Closed(a + b)
    decreases |a|
  {
    if |a| == 0 {
      assert a + b == b;
    } else {
      assert (a + b)[0] == a[0] && (a + b)[1..] == a[1..] + b;
      if a[0] == '<' {
        AfterTagAppend(a[1..], b);
        ClosedAppend(AfterTag(a[1..]), b);
      } else {
        ClosedAppend(a[1..], b);
      }
    }
  }

  /** Text without `<` opens no tag and is displayed as it is. */
  lemma {:induction false} NoTags(e: string)
    requires '<' !in e
    ensures Closed(e) && TagFree(e) == e
    decreases |e|
  {
    if |e| > 0 {
      assert e[0] != '<';
      NoTags(e[1..]);
      assert e == [e[0]] + e[1..];
    }
  }

  /** `<inner>` + text + `</b>`, with neither tag containing the other's brackets,
      is closed and displays as the text. */
  lemma Wrapped(inner: string, e: string)
    requires '>' !in inner && '<' !in e
    ensures var s := "<" + inner + ">" + e + "</b>"; Closed(s) && TagFree(s) == e
  {
    var s := "<" + inner + ">" + e + "</b>";
    var body := e + "</b>";
    assert s[0] == '<' && s[1..] == inner + ">" + body;
    TagSkip(inner, body);
    var close := "</b>";
    assert close[0] == '<' && close[1..] == "/b" + ">" + "";
    TagSkip("/b", "");
    assert AfterTag(close[1..]) == "";
    assert Closed(close) && TagFree(close) == "";
    NoTags(e);
    TagFreeAppend(e, close);
    ClosedAppend(e, close);
  }

  // ---------------------------------------------------------------------------
  // One token

  /** A colour that cannot end the tag it is written into. */
  predicate CleanColor(c: Option<string>) {
    c.Some? ==> '>' !in c.value
  }

  /** The styled bold of a colour without `>` is closed and displays its text. */
  lemma StyledShows(color: string, e: string)
    requires '>' !in color && '<' !in e
    ensures var s := "<b style=\"color:" + color + "\">" + e + "</b>"; Closed(s) && TagFree(s) == e
  {
    var pre := "b style=\"color:";
    assert '>' !in pre by {
      assert forall i :: 0 <= i < |pre| ==> pre[i] != '>';
    }
    var inner := pre + color + "\"";
    assert '>' !in inner;
    Wrapped(inner, e);
    assert "<b style=\"color:" == "<" + pre;
    assert "\">" == "\"" + ">";
    assert "<b style=\"color:" + color + "\">" + e + "</b>" == "<" + inner + ">" + e + "</b>";
  }

  /** The markup of one token is closed and displays exactly the text it wraps. */
  lemma RenderShows(c: Option<string>, e: string)
    requires CleanColor(c) && '<' !in e
    ensures Closed(Render(c, e)) && TagFree(Render(c, e)) == e
  {
    if e == "" || c == None || c == Some("") {
      NoTags(e);
    } else if c == Some("black") {
      Wrapped("b", e);
      assert "<b>" + e + "</b>" == "<" + "b" + ">" + e + "</b>";
    } else {
      StyledShows(c.value, e);
    }
  }

  /** What the reader of a coloured token sees, decoded, is the token's text. */
  lemma RenderShowsText(c: Option<string>, t: string)
    requires CleanColor(c)
    ensures Unescape(TagFree(Render(c, Escape(t)))) == t
  {
    RenderShows(c, Escape(t));
    EscapeRoundTrip(t);
  }

  /** Escaping works character by character. */
  lemma {:induction false} EscapeAppend(a: string, b: string)
    ensures Escape(a + b) == Escape(a) + Escape(b)
    decreases |a|
  {
    if |a| == 0 {
      assert a + b == b;
    } else {
      assert (a + b)[0] == a[0] && (a + b)[1..] == a[1..] + b;
      EscapeAppend(a[1..], b);
    }
  }

  // ---------------------------------------------------------------------------
  // The handler over the source

  /** Text the handler may copy unescaped without changing what is displayed. */
  predicate Clean(s: string) {
    forall i :: 0 <= i < |s| ==> !NeedsEscape(s[i])
  }

  /** A colour table with a `_TEXT` entry whose colours cannot end a tag. */
  predicate CleanColors(colors: Colors) {
    TEXT in colors && forall k :: k in colors ==> CleanColor(colors[k])
  }

  /** What has been written displays, decoded, as the source up to `pos`. */
  predicate Shows(p: Parser) {
    p.pos <= |p.raw| && Closed(p.out) && TagFree(p.out) == Escape(p.raw[..p.pos])
  }

  /** A token as a tokenizer of `p.raw` reports it: in a valid row, at or after the
      written offset, with a gap that needs no escaping; a line break directly at the
      offset over the source's `\n`; an indent token at most at the end of the text;
      any other token over its own text in the source. */
  predicate FromSource(p: Parser, t: Token) {
    && t.srow < |p.lines|
    && p.pos <= Start(p, t)
    && if t.kind == NEWLINE || t.kind == NL then
         Start(p, t) == p.pos && t.text == "\n" && Start(p, t) < |p.raw| && p.raw[Start(p, t)] == '\n'
       else if t.kind == INDENT || t.kind == DEDENT then
         Start(p, t) <= |p.raw| && Clean(p.raw[p.pos..Start(p, t)])
       else
         && Start(p, t) + |t.text| <= |p.raw|
         && p.raw[Start(p, t)..Start(p, t) + |t.text|] == t.text
         && Clean(p.raw[p.pos..Start(p, t)])
  }

  /** Writing `w` that displays as the next stretch of source keeps `Shows`. */
  lemma ShowsExtend(p: Parser, w: string, newpos: nat)
    requires Shows(p) && p.pos <= newpos <= |p.raw|
    requires Closed(w) && TagFree(w) == Escape(p.raw[p.pos..newpos])
    ensures Shows(p.(pos := newpos, out := p.out + w))
  {
    TagFreeAppend(p.out, w);
    ClosedAppend(p.out, w);
    EscapeAppend(p.raw[..p.pos], p.raw[p.pos..newpos]);
    assert p.raw[..p.pos] + p.raw[p.pos..newpos] == p.raw[..newpos];
  }

  /** `ShowsExtend` for a write made of two pieces. */
  lemma ShowsExtendTwo(p: Parser, g: string, m: string, newpos: nat)
    requires Shows(p) && p.pos <= newpos <= |p.raw|
    requires Closed(g + m) && TagFree(g + m) == Escape(p.raw[p.pos..newpos])
    ensures Shows(p.(pos := newpos, out := p.out + g + m))
  {
    ShowsExtend(p, g + m, newpos);
    assert p.out + g + m == p.out + (g + m);
  }

  /** A gap that needs no escaping is written as the source it copies. */
  lemma CleanGap(p: Parser, newpos: nat)
    requires p.pos <= newpos <= |p.raw| && Clean(p.raw[p.pos..newpos])
    ensures Gap(p, newpos) == p.raw[p.pos..newpos]
    ensures Closed(Gap(p, newpos)) && TagFree(Gap(p, newpos)) == Escape(Gap(p, newpos)) == Gap(p, newpos)
  {
    var g := p.raw[p.pos..newpos];
    EscapeIdentity(g);
    assert '<' !in g by {
      assert forall i :: 0 <= i < |g| ==> g[i] != '<';
    }
    NoTags(g);
  }

  lemma LineBreakShows(p: Parser, t: Token)
    requires Shows(p) && FromSource(p, t) && (t.kind == NEWLINE || t.kind == NL)
    ensures Handle(p, t).Handled? && Shows(Handle(p, t).p)
  {
    assert p.raw[p.pos..p.pos + 1] == "\n";
    assert Escape("\n") == "\n";
    NoTags("\n");
    ShowsExtend(p, "\n", p.pos + 1);
  }

  lemma IndentShows(p: Parser, t: Token)
    requires Shows(p) && FromSource(p, t) && (t.kind == INDENT || t.kind == DEDENT)
    ensures Handle(p, t).Handled? && Shows(Handle(p, t).p)
  {
    CleanGap(p, Start(p, t));
    ShowsExtend(p, Gap(p, Start(p, t)), Start(p, t));
  }

  /** The colour an ordinary token gets from a clean table is clean. */
  lemma CleanLookup(colors: Colors, cls: int)
    requires CleanColors(colors)
    ensures ColorOf(colors, cls).Success? && CleanColor(ColorOf(colors, cls).value)
  {
    if cls in colors {
      assert CleanColor(colors[cls]);
    } else {
      assert CleanColor(colors[TEXT]);
    }
  }

  /** Escaping a stretch of text escapes its two halves. */
  lemma EscapeSplit(raw: string, a: nat, b: nat, c: nat)
    requires a <= b <= c <= |raw|
    ensures Escape(raw[a..c]) == Escape(raw[a..b]) + Escape(raw[b..c])
  {
    EscapeAppend(raw[a..b], raw[b..c]);
    assert raw[a..b] + raw[b..c] == raw[a..c];
  }

  /** A clean gap followed by the markup of `text` displays as the gap and the
      escaped text. */
  lemma GapAndMarkup(g: string, c: Option<string>, text: string)
    requires Clean(g) && CleanColor(c)
    ensures var w := g + Render(c, Escape(text));
            Closed(w) && TagFree(w) == Escape(g) + Escape(text)
  {
    var m := Render(c, Escape(text));
    EscapeIdentity(g);
    assert '<' !in g by {
      assert forall i :: 0 <= i < |g| ==> g[i] != '<';
    }
    NoTags(g);
    RenderShows(c, Escape(text));
    TagFreeAppend(g, m);
    ClosedAppend(g, m);
  }

  /** Gap and markup of an ordinary token display as the source from the written
      offset to the end of the token. */
  lemma OrdinaryPiece(p: Parser, t: Token, c: Option<string>)
    requires CleanColor(c) && FromSource(p, t)
    requires t.kind != NEWLINE && t.kind != NL && t.kind != INDENT && t.kind != DEDENT
    ensures var w := Gap(p, Start(p, t)) + Render(c, Escape(t.text));
            Closed(w) && TagFree(w) == Escape(p.raw[p.pos..Start(p, t) + |t.text|])
  {
    var s := Start(p, t);
    var e := s + |t.text|;
    assert s <= e <= |p.raw| && p.raw[s..e] == t.text && Clean(p.raw[p.pos..s]);
    CleanGap(p, s);
    GapAndMarkup(Gap(p, s), c, t.text);
    EscapeSplit(p.raw, p.pos, s, e);
  }

  lemma OrdinaryShows(p: Parser, t: Token, c: Option<string>)
    requires Shows(p) && CleanColor(c) && FromSource(p, t)
    requires t.kind != NEWLINE && t.kind != NL && t.kind != INDENT && t.kind != DEDENT
    ensures Shows(p.(pos := Start(p, t) + |t.text|, out := p.out + Gap(p, Start(p, t)) + Render(c, Escape(t.text))))
  {
    OrdinaryPiece(p, t, c);
    ShowsExtendTwo(p, Gap(p, Start(p, t)), Render(c, Escape(t.text)), Start(p, t) + |t.text|);
  }

  /** One token from the source keeps the written output displaying the source up to
      the new offset, and changes neither the text, its line table nor the colours. */
  lemma HandleShowsSource(p: Parser, t: Token)
    requires Shows(p) && CleanColors(p.colors) && FromSource(p, t)
    ensures Handle(p, t).Handled? && Shows(Handle(p, t).p)
    ensures Handle(p, t).p.raw == p.raw && Handle(p, t).p.lines == p.lines && Handle(p, t).p.colors == p.colors
  {
    if t.kind == NEWLINE || t.kind == NL {
      LineBreakShows(p, t);
    } else if t.kind == INDENT || t.kind == DEDENT {
      IndentShows(p, t);
    } else {
      var cls := Classify(t.kind, t.text);
      CleanLookup(p.colors, cls);
      var c := ColorOf(p.colors, cls).value;
      HandleOrdinary(p, t, c);
      OrdinaryShows(p, t, c);
    }
  }

  /** Each token of the run comes from the source for the parser state it meets. */
  predicate SourceRun(p: Parser, ts: seq<Token>)
    decreases |ts|
  {
    |ts| == 0 || (FromSource(p, ts[0]) && SourceRun(Handle(p, ts[0]).p, ts[1..]))
  }

  /** Over any run of tokens from the source, with any clean colour table, nothing
      raises and the output displays, decoded, as the source up to the offset reached. */
  lemma {:induction false} RunShowsSource(p: Parser, ts: seq<Token>)
    requires Shows(p) && CleanColors(p.colors) && SourceRun(p, ts)
    ensures HandleAll(p, ts).Handled?
    ensures var q := HandleAll(p, ts).p;
            q.raw == p.raw && Shows(q) && Unescape(TagFree(q.out)) == q.raw[..q.pos]
    decreases |ts|
  {
    if |ts| == 0 {
      EscapeRoundTrip(p.raw[..p.pos]);
    } else {
      HandleShowsSource(p, ts[0]);
      RunShowsSource(Handle(p, ts[0]).p, ts[1..]);
    }
  }

  // ---------------------------------------------------------------------------
  // Set-up and the default table

  /** `Parser(raw, colors)` and the set-up of `output`: the text kept is the
      normalised source, the line table reads by 1-based row, nothing is written,
      and so the (empty) output displays the (empty) source read so far. */
  lemma BeginReady(raw: string, colors: Colors)
    ensures var p := Begin(raw, colors);
            p.raw == Normalize(raw) && p.colors == colors && p.pos == 0 && p.out == "" &&
            p.pos <= |p.raw| && p.out == p.raw[..p.pos] && Shows(p) &&
            p.lines[1] == 0 && p.lines[|p.lines| - 1] == |p.raw| &&
            (forall r :: 2 <= r < |p.lines| - 1 ==> EndsLine(p.raw, p.lines[r])) &&
            (forall i :: 0 <= i < |p.raw| && p.raw[i] == '\n' ==> i + 1 in p.lines[2..|p.lines| - 1])
  {
    var p := Begin(raw, colors);
    RowStarts(p.raw);
    assert p.raw[..0] == "";
  }

  /** From `Begin`, any run of tokens from the source leaves an output that displays
      as the normalised source up to the offset reached. */
  lemma ColorizedShowsSource(raw: string, colors: Colors, ts: seq<Token>)
    requires CleanColors(colors) && SourceRun(Begin(raw, colors), ts)
    ensures HandleAll(Begin(raw, colors), ts).Handled?
    ensures var q := HandleAll(Begin(raw, colors), ts).p;
            q.pos <= |Normalize(raw)| && Unescape(TagFree(q.out)) == Normalize(raw)[..q.pos]
  {
    BeginReady(raw, colors);
    RunShowsSource(Begin(raw, colors), ts);
  }

  /** The default table `_colors`: it has the `_TEXT` entry and no colour ends a tag,
      so the lookup never raises; keywords are blue, operators and other names
      bare, and any type it does not list falls back to black. */
  lemma DefaultColorsPinned(kind: int, text: string)
    ensures CleanColors(DefaultColors())
    ensures ColorOf(DefaultColors(), Classify(kind, text)).Success?
    ensures kind == NAME && text in Keywords ==> ColorOf(DefaultColors(), Classify(kind, text)) == Success(Some("blue"))
    ensures kind == NAME && text !in Keywords ==> ColorOf(DefaultColors(), Classify(kind, text)) == Success(None)
    ensures LPAR <= kind <= OP ==> ColorOf(DefaultColors(), Classify(kind, text)) == Success(None)
    ensures kind !in {NUMBER, STRING, COMMENT, NAME, ERRORTOKEN, KEYWORD, TEXT} && !(LPAR <= kind <= OP) ==>
              ColorOf(DefaultColors(), Classify(kind, text)) == Success(Some("black"))
  {
    var d := DefaultColors();
    forall k | k in d ensures CleanColor(d[k]) {
      assert d[k] in {None, Some("black"), Some("brown"), Some("green"), Some("red"), Some("blue")};
    }
  }
}
