/** The tokenizer of SQL-like schema definitions (crates/pelago-cli/src/schema_input.rs). */
module SqlLexer {
  import opened Common
  import opened Text

  datatype Token = Token(text: string, quoted: bool)

  predicate IsSymbol(c: char) {
    c == '(' || c == ')' || c == ',' || c == ';' || c == '='
  }

  predicate IsQuote(c: char) {
    c == '\'' || c == '"'
  }

  // ---- pieces ----

  /** What follows the end of the line. */
  function SkipLine(s: string): (r: string)
    ensures |r| <= |s|
  {
    if s == [] then [] else if s[0] == '\n' then s[1..] else SkipLine(s[1..])
  }

  /** A quoted value, with backslash escapes undone, and what follows its closing quote. */
  function Quoted(s: string, quote: char): (r: Option<(string, string)>)
    ensures r.Some? ==> |r.value.1| < |s|
  {
    if s == [] then None
    else if s[0] == '\\' then
      if |s| == 1 then None
      else
        var r := Quoted(s[2..], quote);
        if r.None? then None else Some(([s[1]] + r.value.0, r.value.1))
    else if s[0] == quote then Some(([], s[1..]))
    else
      var r := Quoted(s[1..], quote);
      if r.None? then None else Some(([s[0]] + r.value.0, r.value.1))
  }

  /** A bare word ends before whitespace, a symbol or a comment. */
  predicate EndsWord(s: string) {
    s == [] || IsSpace(s[0]) || IsSymbol(s[0]) || s[0] == '#' || (s[0] == '-' && |s| > 1 && s[1] == '-')
  }

  function WordRest(s: string): (r: string)
    ensures |r| <= |s|
  {
    if EndsWord(s) then s else WordRest(s[1..])
  }

  function Consumed(s: string, rest: string): string
    requires |rest| <= |s|
  {
    s[..|s| - |rest|]
  }

  function Cons(t: Token, ts: Option<seq<Token>>): Option<seq<Token>> {
    if ts.None? then None else Some([t] + ts.value)
  }

  /** One turn of the tokenizer: something skipped, or a token, and what follows. */
  datatype Lexed = Skipped(rest: string) | Got(token: Token, rest: string) | Unterminated

  function Lex(s: string): (r: Lexed)
    requires s != []
    ensures !r.Unterminated? ==> |r.rest| < |s|
  {
    if IsSpace(s[0]) then Skipped(s[1..])
    else if s[0] == '-' && |s| > 1 && s[1] == '-' then Skipped(SkipLine(s[2..]))
    else if s[0] == '#' then Skipped(SkipLine(s[1..]))
    else if IsSymbol(s[0]) then Got(Token([s[0]], false), s[1..])
    else if IsQuote(s[0]) then
      var q := Quoted(s[1..], s[0]);
      if q.None? then Unterminated else Got(Token(q.value.0, true), q.value.1)
    else
      var rest := WordRest(s[1..]);
      Got(Token(Consumed(s, rest), false), rest)
  }

  /** The tokens of a text, unless a quoted string is not closed. */
  function Tokens(s: string): Option<seq<Token>>
    decreases |s|
  {
    if s == [] then Some([])
    else
      match Lex(s)
      case Skipped(rest) => Tokens(rest)
      case Got(t, rest) => Cons(t, Tokens(rest))
      case Unterminated => None
  }

  // ---- the character loops ----

  method SkipToLineEnd(input: string, start: nat) returns (i: nat)
    requires start <= |input|
    ensures start <= i <= |input| && input[i..] == SkipLine(input[start..])
  {
    i := start;
    while i < |input|
      invariant start <= i <= |input|
      invariant SkipLine(input[i..]) == SkipLine(input[start..])
    {
      assert input[i..][1..] == input[i + 1..];
      var c := input[i];
      i := i + 1;
      if c == '\n' {
        return;
      }
    }
  }

  function Onto(value: string, r: Option<(string, string)>): Option<(string, string)> {
    if r.None? then None else Some((value + r.value.0, r.value.1))
  }

  lemma OntoEmpty(r: Option<(string, string)>)
    ensures Onto("", r) == r
  {
    if r.Some? {
      assert "" + r.value.0 == r.value.0;
    }
  }

  lemma OntoTwice(value: string, c: char, r: Option<(string, string)>)
    ensures Onto(value + [c], r) == Onto(value, Onto([c], r))
  {
    if r.Some? {
      assert value + [c] + r.value.0 == value + ([c] + r.value.0);
    }
  }

  method ReadQuoted(input: string, start: nat, quote: char) returns (value: Option<string>, i: nat)
    requires start <= |input|
    ensures start <= i <= |input|
    ensures Quoted(input[start..], quote) == if value.None? then None else Some((value.value, input[i..]))
  {
    var text := "";
    var escaped := false;
    i := start;
    OntoEmpty(Quoted(input[start..], quote));
    while i < |input|
      invariant start <= i <= |input| && (escaped ==> i > start && input[i - 1] == '\\')
      invariant Onto(text, Quoted(if escaped then input[i - 1..] else input[i..], quote)) == Quoted(input[start..], quote)
    {
      var c := input[i];
      assert input[i..][1..] == input[i + 1..];
      i := i + 1;
      if escaped {
        assert input[i - 2..][2..] == input[i..] && input[i - 2..][1] == c;
        OntoTwice(text, c, Quoted(input[i..], quote));
        text := text + [c];
        escaped := false;
      } else if c == '\\' {
        escaped := true;
      } else if c == quote {
        assert text + [] == text;
        return Some(text), i;
      } else {
        OntoTwice(text, c, Quoted(input[i..], quote));
        text := text + [c];
      }
    }
    value := None;
  }

  lemma WordGoesOn(input: string, i: nat)
    requires i < |input|
    ensures WordRest(input[i..]) == if EndsWord(input[i..]) then input[i..] else WordRest(input[i + 1..])
  {
    assert input[i..][1..] == input[i + 1..];
  }

  method ReadWord(input: string, start: nat) returns (i: nat)
    requires start < |input|
    ensures start < i <= |input| && input[i..] == WordRest(input[start + 1..])
  {
    i := start + 1;
    ghost var rest := WordRest(input[i..]);
    while i < |input|
      invariant start < i <= |input|
      invariant WordRest(input[i..]) == rest
    {
      WordGoesOn(input, i);
      if EndsWord(input[i..]) {
        return;
      }
      i := i + 1;
    }
    assert input[i..] == [];
  }

  /** Tokens already read, in front of those still to come. */
  function Prepend(done: seq<Token>, rest: Option<seq<Token>>): Option<seq<Token>> {
    if rest.None? then None else Some(done + rest.value)
  }

  lemma PrependCons(done: seq<Token>, t: Token, rest: Option<seq<Token>>)
    ensures Prepend(done, Cons(t, rest)) == Prepend(done + [t], rest)
  {
    if rest.Some? {
      assert done + ([t] + rest.value) == done + [t] + rest.value;
    }
  }

  /** Read one token, or skip a space or a comment. */
  method LexAt(input: string, i: nat) returns (token: Option<Token>, j: nat, ok: bool)
    requires i < |input|
    ensures ok ==> i < j <= |input|
    ensures Lex(input[i..]) == if !ok then Unterminated
                               else if token.Some? then Got(token.value, input[j..])
                               else Skipped(input[j..])
  {
    var c := input[i];
    token, j, ok := None, i + 1, true;
    ghost var s := input[i..];
    assert s[1..] == input[i + 1..];
    if IsSpace(c) {
    } else if c == '-' && i + 1 < |input| && input[i + 1] == '-' {
      assert s[2..] == input[i + 2..];
      j := SkipToLineEnd(input, i + 2);
    } else if c == '#' {
      j := SkipToLineEnd(input, i + 1);
    } else if IsSymbol(c) {
      token := Some(Token([c], false));
    } else if IsQuote(c) {
      var value;
      value, j := ReadQuoted(input, i + 1, c);
      ok := value.Some?;
      if ok {
        token := Some(Token(value.value, true));
      }
    } else {
      j := ReadWord(input, i);
      assert Consumed(s, input[j..]) == input[i..j];
      token := Some(Token(input[i..j], false));
    }
  }

  /** With `tokens` read and `s` to come, the whole tokenizes to `whole`. */
  ghost predicate Pending(tokens: seq<Token>, s: string, whole: Option<seq<Token>>) {
    Prepend(tokens, Tokens(s)) == whole
  }

  lemma PendingStart(s: string)
    ensures Pending([], s, Tokens(s))
  {
    if Tokens(s).Some? {
      assert [] + Tokens(s).value == Tokens(s).value;
    }
  }

  lemma PendingStep(tokens: seq<Token>, s: string, whole: Option<seq<Token>>)
    requires s != [] && Pending(tokens, s, whole)
    ensures match Lex(s)
            case Skipped(rest) => Pending(tokens, rest, whole)
            case Got(t, rest) => Pending(tokens + [t], rest, whole)
            case Unterminated => whole == None
  {
    if Lex(s).Got? {
      PrependCons(tokens, Lex(s).token, Tokens(Lex(s).rest));
    }
  }

  lemma PendingEnd(tokens: seq<Token>, whole: Option<seq<Token>>)
    requires Pending(tokens, [], whole)
    ensures whole == Some(tokens)
  {
    assert tokens + [] == tokens;
  }

  method Tokenize(input: string) returns (r: Option<seq<Token>>)
    ensures r == Tokens(input)
  {
    var tokens: seq<Token> := [];
    var i := 0;
    ghost var whole := Tokens(input);
    assert input[0..] == input;
    PendingStart(input);
    while i < |input|
      invariant 0 <= i <= |input|
      invariant Pending(tokens, input[i..], whole)
    {
      var token, j, ok := LexAt(input, i);
      PendingStep(tokens, input[i..], whole);
      if !ok {
        return None;
      }
      if token.Some? {
        tokens := tokens + [token.value];
      }
      i := j;
    }
    assert input[i..] == [];
    PendingEnd(tokens, whole);
    r := Some(tokens);
  }
}
