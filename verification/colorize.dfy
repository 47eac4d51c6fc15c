/** The token handler of colorize-py/colorize.py (`Parser.__call__`): each token
    from the tokenizer writes the source gap before it, then its HTML-escaped
    text wrapped in the markup of its colour. The tokenizer is not modelled; its
    output is an abstract sequence of tokens. */
module Colorize {
  import opened Py
  import opened ColorizeText

  // Token numbers of Python 2.7's `token` and `tokenize` modules.
  const NAME: int := 1
  const NUMBER: int := 2
  const STRING: int := 3
  const NEWLINE: int := 4
  const INDENT: int := 5
  const DEDENT: int := 6
  const LPAR: int := 7
  const OP: int := 51
  const ERRORTOKEN: int := 52
  const COMMENT: int := 53
  const NL: int := 54
  const NT_OFFSET: int := 256
  /** The two pseudo token types the colour table adds. */
  const KEYWORD: int := NT_OFFSET + 1
  const TEXT: int := NT_OFFSET + 2

  /** `keyword.kwlist` of Python 2.7. */
  const Keywords: set<string> := {
    "and", "as", "assert", "break", "class", "continue", "def", "del", "elif",
    "else", "except", "exec", "finally", "for", "from", "global", "if", "import",
    "in", "is", "lambda", "not", "or", "pass", "print", "raise", "return", "try",
    "while", "with", "yield"
  }

  type Colors = map<int, Option<string>>

  /** The default colour table `_colors`; `None` means "no markup". */
  function DefaultColors(): Colors {
    map[NUMBER := Some("black"), OP := None, STRING := Some("brown"), COMMENT := Some("green"),
        NAME := None, ERRORTOKEN := Some("red"), KEYWORD := Some("blue"), TEXT := Some("black")]
  }

  /** A token as the tokenizer reports it (the end position and line are unused). */
  datatype Token = Token(kind: int, text: string, srow: nat, scol: nat)

  /** The parser during `output`: the stored text, its line table, the colour
      table, the offset written up to, and what has been written so far. */
  datatype Parser = Parser(raw: string, lines: seq<nat>, colors: Colors, pos: nat, out: string)

  /** `Parser(raw, out, colors)` followed by the set-up in `output`: the stored text
      is the normalised source, the table its row starts, nothing written yet. */
  function Begin(raw: string, colors: Colors): Parser {
    var text := Normalize(raw);
    Parser(text, [0, 0] + BreakEnds(text, 0) + [|text|], colors, 0, "")
  }

  /** What one handler call ends with: normally, or raising after having written `p.out`. */
  datatype Handled = Handled(p: Parser) | Raised(p: Parser, error: Error)

  // ---------------------------------------------------------------------------
  // Escaping

  /** `cgi.escape(s)` without `quote`: `&`, `<` and `>` become entities. */
  function Escape(s: string): (r: string)
    ensures |r| >= |s|
    ensures forall i :: 0 <= i < |r| ==> r[i] != '<' && r[i] != '>'
    decreases |s|
  {
    if |s| == 0 then ""
    else
      (if s[0] == '&' then "&amp;" else if s[0] == '<' then "&lt;" else if s[0] == '>' then "&gt;" else [s[0]])
      + Escape(s[1..])
  }

  /** The decoding an HTML reader applies to the three entities. */
  function Unescape(s: string): string
    decreases |s|
  {
    if |s| >= 5 && s[..5] == "&amp;" then "&" + Unescape(s[5..])
    else if |s| >= 4 && s[..4] == "&lt;" then "<" + Unescape(s[4..])
    else if |s| >= 4 && s[..4] == "&gt;" then ">" + Unescape(s[4..])
    else if |s| == 0 then ""
    else [s[0]] + Unescape(s[1..])
  }

  predicate NeedsEscape(c: char) { c == '&' || c == '<' || c == '>' }

  /** Escaping loses nothing: decoding gives back the token text. */
  lemma {:induction false} EscapeRoundTrip(s: string)
    ensures Unescape(Escape(s)) == s
    decreases |s|
  {
    if |s| > 0 {
      EscapeRoundTrip(s[1..]);
      var tail := Escape(s[1..]);
      if s[0] == '&' {
        UnescapeEntity("&amp;", '&', tail);
      } else if s[0] == '<' {
        UnescapeEntity("&lt;", '<', tail);
      } else if s[0] == '>' {
        UnescapeEntity("&gt;", '>', tail);
      } else {
        UnescapePlain(s[0], tail);
      }
      assert s == [s[0]] + s[1..];
    }
  }

  /** Decoding an entity followed by more text. */
  lemma UnescapeEntity(entity: string, c: char, tail: string)
    requires (entity, c) in {("&amp;", '&'), ("&lt;", '<'), ("&gt;", '>')}
    ensures Unescape(entity + tail) == [c] + Unescape(tail)
  {
    var e := entity + tail;
    assert e[..|entity|] == entity && e[|entity|..] == tail;
    if c != '&' {
      assert e[1] == entity[1] != 'a';
    }
    if c == '>' {
      assert e[1] == 'g';
    }
  }

  /** Decoding a character that does not start an entity. */
  lemma UnescapePlain(c: char, tail: string)
    requires c != '&'
    ensures Unescape([c] + tail) == [c] + Unescape(tail)
  {
    var e := [c] + tail;
    assert e[0] == c && e[1..] == tail;
  }

  /** Text without `&`, `<`, `>` is written unchanged, and any other text is changed. */
  lemma {:induction false} EscapeIdentity(s: string)
    ensures Escape(s) == s <==> forall i :: 0 <= i < |s| ==> !NeedsEscape(s[i])
    decreases |s|
  {
    if |s| > 0 {
      EscapeIdentity(s[1..]);
      if NeedsEscape(s[0]) {
        assert |Escape(s)| > |s|;
      } else {
        assert Escape(s) == [s[0]] + Escape(s[1..]);
        if Escape(s) == s {
          assert Escape(s[1..]) == s[1..];
        }
        if forall i :: 0 <= i < |s| ==> !NeedsEscape(s[i]) {
          assert forall i :: 0 <= i < |s| - 1 ==> !NeedsEscape(s[1..][i]);
        }
      }
    }
  }

  // ---------------------------------------------------------------------------
  // Colour classes and markup

  /** Token types from `LPAR` to `OP` share the operator class; keyword names get
      the keyword class; every other type is its own class. */
  function Classify(kind: int, text: string): (cls: int)
    ensures LPAR <= kind <= OP ==> cls == OP
    ensures kind == NAME && text in Keywords ==> cls == KEYWORD
    ensures !(LPAR <= kind <= OP) && !(kind == NAME && text in Keywords) ==> cls == kind
  {
    if LPAR <= kind && kind <= OP then OP
    else if kind == NAME && text in Keywords then KEYWORD
    else kind
  }

  /** `colors.get(cls, colors[_TEXT])`: the default is looked up first, so a table
      without a `_TEXT` entry raises `KeyError` even for a class it has. */
  function ColorOf(colors: Colors, cls: int): (r: Result<Option<string>>)
    ensures TEXT !in colors <==> r == Failure(KeyError)
    ensures TEXT in colors && cls in colors ==> r == Success(colors[cls])
    ensures TEXT in colors && cls !in colors ==> r == Success(colors[TEXT])
  {
    var fallback :- if TEXT in colors then Success(colors[TEXT]) else Failure(KeyError);
    Success(if cls in colors then colors[cls] else fallback)
  }

  /** The markup for already-escaped text: nothing for empty text; bare text without
      a colour (`None` or the empty string); bold for black; a styled bold otherwise. */
  function Render(color: Option<string>, text: string): (r: string)
    ensures text == "" ==> r == ""
    ensures text != "" && (color == None || color == Some("")) ==> r == text
    ensures text != "" && color == Some("black") ==> r == "<b>" + text + "</b>"
    ensures text != "" && color.Some? && color.value != "" && color.value != "black" ==>
              r == "<b style=\"color:" + color.value + "\">" + text + "</b>"
  {
    if text == "" then ""
    else match color
      case None => text
      case Some(c) =>
        if c == "" then text
        else if c == "black" then "<b>" + text + "</b>"
        else "<b style=\"color:" + c + "\">" + text + "</b>"
  }

  // ---------------------------------------------------------------------------
  // The handler

  /** `raw[a:b]` with Python's clamping at the end of the string. */
  function Slice(raw: string, a: nat, b: nat): (r: string)
    requires a <= b
    ensures b <= |raw| ==> r == raw[a..b]
  {
    var hi := if b <= |raw| then b else |raw|;
    var lo := if a <= hi then a else hi;
    raw[lo..hi]
  }

  /** The source gap written before a token that starts after the written offset. */
  function Gap(p: Parser, newpos: nat): string {
    if newpos > p.pos then Slice(p.raw, p.pos, newpos) else ""
  }

  /** Where a token starts in the text: `lines[srow] + scol`. */
  function Start(p: Parser, t: Token): nat
    requires t.srow < |p.lines|
  {
    p.lines[t.srow] + t.scol
  }

  /** `Parser.__call__`. */
  function Handle(p: Parser, t: Token): (h: Handled)
    ensures t.srow >= |p.lines| <==> h == Raised(p, IndexError)
    ensures t.srow < |p.lines| && (t.kind == NEWLINE || t.kind == NL) ==>
              h == Handled(p.(pos := Start(p, t) + |t.text|, out := p.out + "\n"))
    ensures t.srow < |p.lines| && (t.kind == INDENT || t.kind == DEDENT) ==>
              h == Handled(p.(pos := Start(p, t), out := p.out + Gap(p, Start(p, t))))
    ensures h.Handled? && t.kind != INDENT && t.kind != DEDENT ==> h.p.pos == Start(p, t) + |t.text|
  {
    if t.srow >= |p.lines| then Raised(p, IndexError)
    else
      var newpos := p.lines[t.srow] + t.scol;
      var moved := p.(pos := newpos + |t.text|);
      if t.kind == NEWLINE || t.kind == NL then
        Handled(moved.(out := p.out + "\n"))
      else
        var gapped := moved.(out := p.out + Gap(p, newpos));
        if t.kind == INDENT || t.kind == DEDENT then
          Handled(gapped.(pos := newpos))
        else
          match ColorOf(p.colors, Classify(t.kind, t.text))
          case Failure(e) => Raised(gapped, e)
          case Success(c) => Handled(gapped.(out := gapped.out + Render(c, Escape(t.text))))
  }

  /** The handler only appends: what was written stays, and every token other than
      a line break writes the source gap before its own markup. */
  lemma HandleOnlyAppends(p: Parser, t: Token)
    ensures p.out <= Handle(p, t).p.out
    ensures t.srow < |p.lines| && t.kind != NEWLINE && t.kind != NL ==>
              p.out + Gap(p, Start(p, t)) <= Handle(p, t).p.out
  {
    var h := Handle(p, t);
    if t.srow < |p.lines| && t.kind != NEWLINE && t.kind != NL {
      var w := p.out + Gap(p, Start(p, t));
      assert h.p.out[..|w|] == w;
    }
  }

  /** An ordinary token in a valid row writes the gap and then the escaped text in
      the markup of its colour class, and moves the offset past the token. */
  lemma HandleOrdinary(p: Parser, t: Token, c: Option<string>)
    requires t.srow < |p.lines|
    requires t.kind != NEWLINE && t.kind != NL && t.kind != INDENT && t.kind != DEDENT
    requires ColorOf(p.colors, Classify(t.kind, t.text)) == Success(c)
    ensures Handle(p, t) ==
              Handled(p.(pos := Start(p, t) + |t.text|,
                         out := p.out + Gap(p, Start(p, t)) + Render(c, Escape(t.text))))
  {
  }

  /** The handler applied to the tokens in order, stopping at the first exception. */
  function HandleAll(p: Parser, ts: seq<Token>): Handled
    decreases |ts|
  {
    if |ts| == 0 then Handled(p)
    else match Handle(p, ts[0])
      case Raised(q, e) => Raised(q, e)
      case Handled(q) => HandleAll(q, ts[1..])
  }

  /** A plain token: an ordinary token in a valid row whose text is the source at
      its position and needs no escaping, coloured with no markup. */
  predicate Plain(p: Parser, t: Token) {
    && t.srow < |p.lines|
    && t.kind != NEWLINE && t.kind != NL && t.kind != INDENT && t.kind != DEDENT
    && p.pos <= Start(p, t) && Start(p, t) + |t.text| <= |p.raw|
    && p.raw[Start(p, t)..Start(p, t) + |t.text|] == t.text
    && (forall i :: 0 <= i < |t.text| ==> !NeedsEscape(t.text[i]))
    && ColorOf(p.colors, Classify(t.kind, t.text)) == Success(None)
  }

  /** Gap plus token reproduce the source: when everything written so far is the
      text up to `pos`, the same holds after a plain token, which moves `pos` past
      itself. */
  lemma PlainTokenExtendsSource(p: Parser, t: Token)
    requires p.pos <= |p.raw| && p.out == p.raw[..p.pos]
    requires Plain(p, t)
    ensures Handle(p, t) == Handled(p.(pos := Start(p, t) + |t.text|, out := p.raw[..Start(p, t) + |t.text|]))
  {
    var s := Start(p, t);
    EscapeIdentity(t.text);
    HandleOrdinary(p, t, None);
    assert Gap(p, s) == p.raw[p.pos..s];
    assert Render(None, Escape(t.text)) == p.raw[s..s + |t.text|];
    PrefixExtends(p.raw, p.pos, s, s + |t.text|);
  }

  /** Three adjacent slices from the start make one prefix. */
  lemma PrefixExtends(raw: string, a: nat, b: nat, c: nat)
    requires a <= b <= c <= |raw|
    ensures raw[..a] + raw[a..b] + raw[b..c] == raw[..c]
  {
  }

  /** Over a run of plain tokens the output is exactly the source text up to the end
      of the last token: the colorizer with an all-blank colour table copies its input. */
  lemma {:induction false} PlainRunCopiesSource(p: Parser, ts: seq<Token>)
    requires p.pos <= |p.raw| && p.out == p.raw[..p.pos]
    requires PlainRun(p, ts)
    ensures HandleAll(p, ts).Handled?
    ensures var q := HandleAll(p, ts).p; q.raw == p.raw && q.pos <= |q.raw| && q.out == q.raw[..q.pos]
    decreases |ts|
  {
    if |ts| > 0 {
      PlainTokenExtendsSource(p, ts[0]);
      var q := Handle(p, ts[0]).p;
      PlainRunCopiesSource(q, ts[1..]);
    }
  }

  /** Each token of the run is plain for the parser state it meets. */
  predicate PlainRun(p: Parser, ts: seq<Token>)
    decreases |ts|
  {
    |ts| == 0 ||
    (Plain(p, ts[0]) && Handle(p, ts[0]).Handled? && PlainRun(Handle(p, ts[0]).p, ts[1..]))
  }
}
