/** Texts as the tokenizer reads them: exactly which text gives which tokens. */
module SqlText {
  import opened Common
  import opened Text
  import opened SqlLexer

  // ---- the elements of a text ----

  /** A character of a quoted string, behind a backslash or not. */
  datatype Char = Char(c: char, escaped: bool)

  /** A comment runs to the end of its line, or of the text. */
  datatype Element =
    | Space(c: char)
    | Comment(dashes: bool, text: string, ended: bool)
    | SymbolText(c: char)
    | WordText(w: string)
    | QuotedText(quote: char, chars: seq<Char>)

  function RawText(chars: seq<Char>): string {
    if chars == [] then []
    else (if chars[0].escaped then ['\\', chars[0].c] else [chars[0].c]) + RawText(chars[1..])
  }

  function PlainText(chars: seq<Char>): string {
    if chars == [] then [] else [chars[0].c] + PlainText(chars[1..])
  }

  function LineEnd(ended: bool): string {
    if ended then ['\n'] else []
  }

  function ElementText(e: Element): string {
    match e
    case Space(c) => [c]
    case Comment(dashes, text, ended) => (if dashes then "--" else "#") + (text + LineEnd(ended))
    case SymbolText(c) => [c]
    case WordText(w) => w
    case QuotedText(quote, chars) => [quote] + (RawText(chars) + [quote])
  }

  function ElementTokens(e: Element): seq<Token> {
    match e
    case Space(_) => []
    case Comment(_, _, _) => []
    case SymbolText(c) => [Token([c], false)]
    case WordText(w) => [Token(w, false)]
    case QuotedText(_, chars) => [Token(PlainText(chars), true)]
  }

  /** Characters of a word: no space, no symbol, no number sign, no two hyphens together, no quote in front. */
  predicate BareWord(w: string) {
    && w != [] && !IsQuote(w[0])
    && (forall i :: 0 <= i < |w| ==> !IsSpace(w[i]) && !IsSymbol(w[i]) && w[i] != '#')
    && (forall i: nat :: i < |w| ==> !DoubleAt(w, i, '-'))
  }

  /** What may follow a word: a space, a symbol, a comment that its last hyphen is no part of, or nothing. */
  predicate Stops(w: string, rest: string)
    requires w != []
  {
    || rest == [] || IsSpace(rest[0]) || IsSymbol(rest[0]) || rest[0] == '#'
    || (rest[0] == '-' && |rest| > 1 && rest[1] == '-' && w[|w| - 1] != '-')
  }

  predicate ValidChars(chars: seq<Char>, quote: char) {
    forall i :: 0 <= i < |chars| ==> chars[i].escaped || (chars[i].c != quote && chars[i].c != '\\')
  }

  predicate ValidAt(e: Element, rest: string) {
    match e
    case Space(c) => IsSpace(c)
    case Comment(_, text, ended) => '\n' !in text && (!ended ==> rest == [])
    case SymbolText(c) => IsSymbol(c)
    case WordText(w) => BareWord(w) && Stops(w, rest)
    case QuotedText(quote, chars) => IsQuote(quote) && ValidChars(chars, quote)
  }

  function TextOf(es: seq<Element>): string {
    if es == [] then [] else ElementText(es[0]) + TextOf(es[1..])
  }

  function TokensOf(es: seq<Element>): seq<Token> {
    if es == [] then [] else ElementTokens(es[0]) + TokensOf(es[1..])
  }

  predicate ValidElements(es: seq<Element>) {
    es == [] || (ValidAt(es[0], TextOf(es[1..])) && ValidElements(es[1..]))
  }

  // ---- from elements to tokens ----

  lemma {:induction false} LineSkipped(text: string, rest: string)
    requires '\n' !in text
    ensures SkipLine(text + (['\n'] + rest)) == rest && SkipLine(text) == []
    decreases |text|
  {
    var s := text + (['\n'] + rest);
    if text == [] {
      assert s == ['\n'] + rest;
    } else {
      assert s[1..] == text[1..] + (['\n'] + rest);
      LineSkipped(text[1..], rest);
    }
  }

  lemma {:induction false} CharsRead(chars: seq<Char>, quote: char, rest: string)
    requires IsQuote(quote) && ValidChars(chars, quote)
    ensures Quoted(RawText(chars) + ([quote] + rest), quote) == Some((PlainText(chars), rest))
    decreases |chars|
  {
    var s := RawText(chars) + ([quote] + rest);
    if chars == [] {
      assert s == [quote] + rest;
    } else {
      var more := RawText(chars[1..]) + ([quote] + rest);
      CharsRead(chars[1..], quote, rest);
      if chars[0].escaped {
        assert s == ['\\', chars[0].c] + more;
        assert s[2..] == more;
      } else {
        assert s == [chars[0].c] + more;
        assert s[1..] == more;
      }
    }
  }

  lemma {:induction false} WordStops(w: string, rest: string)
    requires (forall i :: 0 <= i < |w| ==> !IsSpace(w[i]) && !IsSymbol(w[i]) && w[i] != '#')
    requires (forall i: nat :: i < |w| ==> !DoubleAt(w, i, '-')) && EndsWord(rest)
    requires w != [] && w[|w| - 1] == '-' ==> rest == [] || rest[0] != '-'
    ensures WordRest(w + rest) == rest
    decreases |w|
  {
    var s := w + rest;
    if w == [] {
      assert s == rest;
    } else {
      assert s[1..] == w[1..] + rest;
      assert forall i: nat :: DoubleAt(w[1..], i, '-') ==> DoubleAt(w, i + 1, '-');
      assert !DoubleAt(w, 0, '-');
      assert |w| == 1 ==> s[1..] == rest;
      WordStops(w[1..], rest);
    }
  }

  lemma WordLexed(w: string, rest: string)
    requires BareWord(w) && Stops(w, rest)
    ensures Lex(w + rest) == Got(Token(w, false), rest)
  {
    var s := w + rest;
    assert s[1..] == w[1..] + rest;
    assert forall i: nat :: DoubleAt(w[1..], i, '-') ==> DoubleAt(w, i + 1, '-');
    WordStops(w[1..], rest);
    assert !DoubleAt(w, 0, '-');
    assert Consumed(s, rest) == w;
  }

  /** One turn of the tokenizer, in front of what follows. */
  ghost predicate Turns(s: string, tokens: seq<Token>, rest: string) {
    s != [] && Lex(s) == if tokens == [] then Skipped(rest) else Got(tokens[0], rest)
  }

  lemma CommentBody(text: string, ended: bool, rest: string)
    requires '\n' !in text && (!ended ==> rest == [])
    ensures SkipLine((text + LineEnd(ended)) + rest) == rest
  {
    LineSkipped(text, rest);
    AppendAssoc(text, LineEnd(ended), rest);
    if !ended {
      assert (text + LineEnd(ended)) + rest == text;
    }
  }

  lemma DashesLexed(body: string)
    ensures Turns("--" + body, [], SkipLine(body))
  {
    var s := "--" + body;
    assert s[0] == '-' && s[1] == '-' && s[2..] == body;
  }

  lemma HashLexed(body: string)
    ensures Turns("#" + body, [], SkipLine(body))
  {
    var s := "#" + body;
    assert s[0] == '#' && s[1..] == body;
  }

  lemma CommentLexed(dashes: bool, text: string, ended: bool, rest: string)
    requires '\n' !in text && (!ended ==> rest == [])
    ensures Turns(ElementText(Comment(dashes, text, ended)) + rest, [], rest)
  {
    var line := text + LineEnd(ended);
    CommentBody(text, ended, rest);
    if dashes {
      AppendAssoc("--", line, rest);
      DashesLexed(line + rest);
    } else {
      AppendAssoc("#", line, rest);
      HashLexed(line + rest);
    }
  }

  lemma QuotedLexed(quote: char, chars: seq<Char>, rest: string)
    requires IsQuote(quote) && ValidChars(chars, quote)
    ensures Turns(ElementText(QuotedText(quote, chars)) + rest, [Token(PlainText(chars), true)], rest)
  {
    var s := ElementText(QuotedText(quote, chars)) + rest;
    assert s[0] == quote && s[1..] == RawText(chars) + ([quote] + rest);
    CharsRead(chars, quote, rest);
  }

  lemma ElementLexed(e: Element, rest: string)
    requires ValidAt(e, rest)
    ensures Turns(ElementText(e) + rest, ElementTokens(e), rest)
  {
    match e
    case Space(c) => assert ([c] + rest)[1..] == rest;
    case Comment(dashes, text, ended) => CommentLexed(dashes, text, ended, rest);
    case SymbolText(c) => assert ([c] + rest)[1..] == rest;
    case WordText(w) => WordLexed(w, rest);
    case QuotedText(quote, chars) => QuotedLexed(quote, chars, rest);
  }

  lemma TurnTokens(s: string, tokens: seq<Token>, rest: string)
    requires Turns(s, tokens, rest) && |tokens| <= 1
    ensures Tokens(s) == Prepend(tokens, Tokens(rest))
  {
    if Tokens(rest).Some? {
      assert [] + Tokens(rest).value == Tokens(rest).value;
      assert tokens != [] ==> tokens == [tokens[0]];
    }
  }

  /** Every text of valid elements gives exactly their tokens. */
  lemma {:induction false} TextRead(es: seq<Element>)
    requires ValidElements(es)
    ensures Tokens(TextOf(es)) == Some(TokensOf(es))
    decreases |es|
  {
    if es != [] {
      var rest := TextOf(es[1..]);
      TextRead(es[1..]);
      ElementLexed(es[0], rest);
      TurnTokens(ElementText(es[0]) + rest, ElementTokens(es[0]), rest);
    }
  }

  // ---- from tokens back to elements ----

  lemma {:induction false} LineSplit(s: string) returns (text: string, ended: bool)
    ensures '\n' !in text && (!ended ==> SkipLine(s) == [])
    ensures s == text + (LineEnd(ended) + SkipLine(s))
    decreases |s|
  {
    if s == [] {
      text, ended := [], false;
    } else if s[0] == '\n' {
      text, ended := [], true;
    } else {
      text, ended := LineSplit(s[1..]);
      text := [s[0]] + text;
    }
  }

  /** One more character in front. */
  lemma CharInFront(c: Char, more: seq<Char>, end: string)
    ensures PlainText([c] + more) == [c.c] + PlainText(more)
    ensures RawText([c] + more) + end == (if c.escaped then ['\\', c.c] else [c.c]) + (RawText(more) + end)
  {
    assert ([c] + more)[1..] == more;
  }

  lemma {:induction false} CharsSplit(s: string, quote: char) returns (chars: seq<Char>)
    requires IsQuote(quote) && Quoted(s, quote).Some?
    ensures ValidChars(chars, quote)
    ensures var (value, rest) := Quoted(s, quote).value;
            value == PlainText(chars) && s == RawText(chars) + ([quote] + rest)
    decreases |s|
  {
    if s[0] == '\\' {
      var more := CharsSplit(s[2..], quote);
      chars := [Char(s[1], true)] + more;
      CharInFront(chars[0], more, [quote] + Quoted(s, quote).value.1);
    } else if s[0] == quote {
      chars := [];
    } else {
      var more := CharsSplit(s[1..], quote);
      chars := [Char(s[0], false)] + more;
      CharInFront(chars[0], more, [quote] + Quoted(s, quote).value.1);
    }
  }

  predicate WordChar(c: char) {
    !IsSpace(c) && !IsSymbol(c) && c != '#'
  }

  /** What a word consumes: nothing that would end it. */
  lemma {:induction false} WordSplit(s: string) returns (n: nat)
    ensures n <= |s| && WordRest(s) == s[n..] && EndsWord(s[n..])
    ensures forall i: nat :: i < n ==> WordChar(s[i]) && !DoubleAt(s, i, '-')
    decreases |s|
  {
    if EndsWord(s) {
      n := 0;
      assert s[0..] == s;
    } else {
      var m := WordSplit(s[1..]);
      n := m + 1;
      assert s[1..][m..] == s[n..];
      forall i: nat | i < n
        ensures WordChar(s[i]) && !DoubleAt(s, i, '-')
      {
        if i > 0 {
          assert WordChar(s[1..][i - 1]) && !DoubleAt(s[1..], i - 1, '-');
        }
      }
    }
  }

  lemma BarePrefix(s: string, n: nat)
    requires 0 < n <= |s| && !IsQuote(s[0]) && EndsWord(s[n..])
    requires forall i: nat :: i < n ==> WordChar(s[i]) && !DoubleAt(s, i, '-')
    ensures BareWord(s[..n]) && Stops(s[..n], s[n..])
  {
    var w := s[..n];
    forall i: nat | i < n
      ensures WordChar(w[i]) && !DoubleAt(w, i, '-')
    {
      assert WordChar(s[i]) && !DoubleAt(s, i, '-');
    }
    assert !DoubleAt(s, n - 1, '-');
    assert n < |s| ==> s[n..][0] == s[n];
  }

  lemma WordElement(s: string)
    requires s != [] && Lex(s).Got? && !IsSymbol(s[0]) && !IsQuote(s[0])
    ensures var w, rest := Lex(s).token.text, Lex(s).rest;
            Lex(s).token == Token(w, false) && s == w + rest && BareWord(w) && Stops(w, rest)
  {
    var m := WordSplit(s[1..]);
    var n := m + 1;
    assert s[1..][m..] == s[n..];
    forall i: nat | i < n
      ensures WordChar(s[i]) && !DoubleAt(s, i, '-')
    {
      if i > 0 {
        assert WordChar(s[1..][i - 1]) && !DoubleAt(s[1..], i - 1, '-');
      }
    }
    BarePrefix(s, n);
    assert Consumed(s, s[n..]) == s[..n] && s == s[..n] + s[n..];
  }

  lemma CommentJoined(mark: string, text: string, ended: bool, rest: string, body: string)
    requires body == text + (LineEnd(ended) + rest)
    ensures mark + body == (mark + (text + LineEnd(ended))) + rest
  {
    AppendAssoc(text, LineEnd(ended), rest);
    AppendAssoc(mark, text + LineEnd(ended), rest);
  }

  lemma CommentSplit(s: string, dashes: bool) returns (e: Element)
    requires s != [] && Lex(s).Skipped? && !IsSpace(s[0]) && dashes == (s[0] != '#')
    ensures ValidAt(e, Lex(s).rest) && s == ElementText(e) + Lex(s).rest && ElementTokens(e) == []
  {
    var mark, body := if dashes then "--" else "#", if dashes then s[2..] else s[1..];
    var text, ended := LineSplit(body);
    e := Comment(dashes, text, ended);
    assert s == mark + body;
    CommentJoined(mark, text, ended, SkipLine(body), body);
  }

  lemma QuotedSplit(s: string) returns (e: Element)
    requires s != [] && Lex(s).Got? && IsQuote(s[0])
    ensures ValidAt(e, Lex(s).rest) && s == ElementText(e) + Lex(s).rest && ElementTokens(e) == [Lex(s).token]
  {
    var chars := CharsSplit(s[1..], s[0]);
    e := QuotedText(s[0], chars);
    assert s == [s[0]] + s[1..];
    AppendAssoc(RawText(chars), [s[0]], Lex(s).rest);
    AppendAssoc([s[0]], RawText(chars) + [s[0]], Lex(s).rest);
  }

  lemma ElementSplit(s: string) returns (e: Element)
    requires s != [] && !Lex(s).Unterminated?
    ensures ValidAt(e, Lex(s).rest) && s == ElementText(e) + Lex(s).rest && Turns(s, ElementTokens(e), Lex(s).rest)
  {
    assert s == [s[0]] + s[1..];
    if IsSpace(s[0]) {
      e := Space(s[0]);
    } else if Lex(s).Skipped? {
      e := CommentSplit(s, s[0] != '#');
    } else if IsSymbol(s[0]) {
      e := SymbolText(s[0]);
    } else if IsQuote(s[0]) {
      e := QuotedSplit(s);
    } else {
      WordElement(s);
      e := WordText(Lex(s).token.text);
    }
  }

  /** Every text that gives tokens is made of valid elements with those tokens. */
  lemma {:induction false} TextSplit(s: string) returns (es: seq<Element>)
    requires Tokens(s).Some?
    ensures ValidElements(es) && s == TextOf(es) && Tokens(s) == Some(TokensOf(es))
    decreases |s|
  {
    if s == [] {
      es := [];
    } else {
      var e := ElementSplit(s);
      var rest := Lex(s).rest;
      TurnTokens(s, ElementTokens(e), rest);
      var more := TextSplit(rest);
      es := [e] + more;
      assert es[0] == e && es[1..] == more;
    }
  }

  ghost predicate Reads(s: string, ts: seq<Token>) {
    exists es: seq<Element> :: ValidElements(es) && s == TextOf(es) && ts == TokensOf(es)
  }

  /** A text gives tokens exactly if it is made of valid elements with these tokens. */
  lemma TokensIff(s: string, ts: seq<Token>)
    ensures Tokens(s) == Some(ts) <==> Reads(s, ts)
  {
    if Tokens(s) == Some(ts) {
      var es := TextSplit(s);
    }
    if Reads(s, ts) {
      var es: seq<Element> :| ValidElements(es) && s == TextOf(es) && ts == TokensOf(es);
      TextRead(es);
    }
  }
}
