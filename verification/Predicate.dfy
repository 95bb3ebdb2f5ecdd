/** Simple comparison predicates and their boolean combinations (crates/pelago-query/src/predicate.rs). */
module Predicate {
  import opened Common
  import opened Text

  // ---- OR-groups of AND-terms ----

  predicate HasEmpty(parts: seq<string>) {
    exists i :: 0 <= i < |parts| && |parts[i]| == 0
  }

  /** The trimmed AND-terms of one OR-part, unless one is empty. */
  function Group(orPart: string): Option<seq<string>> {
    var t := Trim(orPart);
    var parts := TrimAll(Split(t, '&'));
    if t == [] || HasEmpty(parts) then None else Some(parts)
  }

  function Groups(orParts: seq<string>): Option<seq<seq<string>>> {
    if orParts == [] then Some([])
    else
      var n := |orParts| - 1;
      var front, last := Groups(orParts[..n]), Group(orParts[n]);
      if front.None? || last.None? then None else Some(front.value + [last.value])
  }

  function SplitBoolean(expression: string): Option<seq<seq<string>>> {
    var e := Trim(expression);
    if e == [] then None else Groups(Split(e, '|'))
  }

  /** The loop over the parts, whatever trims them. */
  method TrimEach(raw: seq<string>, trim: string -> string) returns (r: Option<seq<string>>)
    ensures r == if HasEmpty(Map(raw, trim)) then None else Some(Map(raw, trim))
  {
    ghost var trimmed := Map(raw, trim);
    var group := [];
    var i := 0;
    while i < |raw|
      invariant 0 <= i <= |raw|
      invariant group == trimmed[..i] && !HasEmpty(group)
    {
      var part := trim(raw[i]);
      assert part == trimmed[i];
      if |part| == 0 {
        return None;
      }
      assert trimmed[..i + 1] == group + [part];
      group := group + [part];
      i := i + 1;
    }
    assert group == trimmed;
    r := Some(group);
  }

  method TrimParts(raw: seq<string>) returns (r: Option<seq<string>>)
    ensures r == if HasEmpty(TrimAll(raw)) then None else Some(TrimAll(raw))
  {
    assert Map(raw, Trim) == TrimAll(raw);
    r := TrimEach(raw, Trim);
  }

  method SplitGroup(orPart: string) returns (r: Option<seq<string>>)
    ensures r == Group(orPart)
  {
    var t := Trim(orPart);
    if t == [] {
      return None;
    }
    r := TrimParts(Split(t, '&'));
  }

  method SplitBooleanExpression(expression: string) returns (r: Option<seq<seq<string>>>)
    ensures r == SplitBoolean(expression)
  {
    var e := Trim(expression);
    if e == [] {
      return None;
    }
    var parts := Split(e, '|');
    var groups := [];
    var i := 0;
    while i < |parts|
      invariant 0 <= i <= |parts|
      invariant Groups(parts[..i]) == Some(groups)
    {
      var group := SplitGroup(parts[i]);
      assert parts[..i + 1][..i] == parts[..i];
      if group.None? {
        NoneStays(parts, i + 1);
        return None;
      }
      groups := groups + [group.value];
      i := i + 1;
    }
    assert parts[..i] == parts;
    r := Some(groups);
  }

  lemma {:induction false} NoneStays(parts: seq<string>, n: nat)
    requires n <= |parts| && Groups(parts[..n]).None?
    ensures Groups(parts).None?
    decreases |parts| - n
  {
    if n == |parts| {
      assert parts[..n] == parts;
    } else {
      assert parts[..n + 1][..n] == parts[..n];
      NoneStays(parts, n + 1);
    }
  }

  /** Every term of a split expression is trimmed, non-empty and free of "&&" and "||". */
  lemma GroupClean(orPart: string, i: nat)
    requires NoDouble(orPart, '|') && Group(orPart).Some? && i < |Group(orPart).value|
    ensures Clean(Group(orPart).value[i])
  {
    var t := Trim(orPart);
    var raw := Split(t, '&');
    TrimNoDouble(orPart, '|');
    SplitParts(t, '&', '|');
    TrimNoDouble(raw[i], '&');
    TrimNoDouble(raw[i], '|');
  }

  lemma SplitSingle(s: string, parts: seq<string>)
    requires s != [] && Trimmed(s) && NoDouble(s, '|') && TrimAll(Split(s, '&')) == parts && !HasEmpty(parts)
    ensures SplitBoolean(s) == Some([parts])
  {
    TrimTrimmed(s);
    FindNone(s, '|');
    assert [s][..0] == [];
    assert Group(s) == Some(parts);
    assert Groups([s]) == Some([] + [parts]);
    assert [] + [parts] == [parts];
  }

  /** Joining clean terms and splitting again gives one group of the same terms. */
  lemma SplitJoined(parts: seq<string>)
    requires parts != [] && forall i :: 0 <= i < |parts| ==> Clean(parts[i])
    ensures SplitBoolean(JoinAnd(parts)) == Some([parts])
  {
    JoinClean(parts);
    SplitJoin(parts);
    SplitSingle(JoinAnd(parts), parts);
  }

  // ---- comparisons ----

  datatype Operator = Eq | Ne | Lt | Le | Gt | Ge

  datatype Literal = StringLiteral(s: string) | IntLiteral(n: int) | FloatLiteral(bits: int) | BoolLiteral(b: bool)

  datatype Comparison = Comparison(field: string, op: Operator, value: Literal)

  /** `parse_literal`: which texts are literals, and of what value. */
  type LiteralParser = string -> Option<Literal>

  function OpText(op: Operator): string {
    match op
    case Eq => "=="
    case Ne => "!="
    case Ge => ">="
    case Le => "<="
    case Gt => ">"
    case Lt => "<"
  }

  /** The order in which the operators are looked for. */
  const OPERATORS: seq<Operator> := [Eq, Ne, Ge, Le, Gt, Lt]

  function Rank(op: Operator): (i: nat)
    ensures i < |OPERATORS| && OPERATORS[i] == op
  {
    match op
    case Eq => 0
    case Ne => 1
    case Ge => 2
    case Le => 3
    case Gt => 4
    case Lt => 5
  }

  predicate MatchAt(s: string, i: nat, pat: string) {
    i + |pat| <= |s| && s[i..i + |pat|] == pat
  }

  lemma MatchTail(s: string, i: nat, pat: string)
    requires s != [] && i > 0
    ensures MatchAt(s, i, pat) == MatchAt(s[1..], i - 1, pat)
  {
    if i + |pat| <= |s| {
      assert s[i..i + |pat|] == s[1..][i - 1..i - 1 + |pat|];
    }
  }

  function Find(s: string, pat: string): (r: Option<nat>)
    ensures r.Some? ==> MatchAt(s, r.value, pat) && forall i: nat :: i < r.value ==> !MatchAt(s, i, pat)
    ensures r.None? ==> forall i: nat :: !MatchAt(s, i, pat)
  {
    if MatchAt(s, 0, pat) then Some(0)
    else if s == [] then None
    else
      var r := Find(s[1..], pat);
      assert forall i: nat :: i > 0 ==> MatchAt(s, i, pat) == MatchAt(s[1..], i - 1, pat) by {
        forall i: nat | i > 0
          ensures MatchAt(s, i, pat) == MatchAt(s[1..], i - 1, pat)
        {
          MatchTail(s, i, pat);
        }
      }
      if r.None? then None else Some(r.value + 1)
  }

  /** What an operator found at `pos` makes of the text. */
  function At(expr: string, op: Operator, pos: nat, literal: LiteralParser): Option<Comparison>
    requires MatchAt(expr, pos, OpText(op))
  {
    var field := Trim(expr[..pos]);
    var value := literal(Trim(expr[pos + |OpText(op)|..]));
    if field == [] || ' ' in field || value.None? then None else Some(Comparison(field, op, value.value))
  }

  function ParseFrom(expr: string, i: nat, literal: LiteralParser): Option<Comparison>
    requires i <= |OPERATORS|
    decreases |OPERATORS| - i
  {
    if i == |OPERATORS| then None
    else
      var pos := Find(expr, OpText(OPERATORS[i]));
      if pos.Some? then At(expr, OPERATORS[i], pos.value, literal) else ParseFrom(expr, i + 1, literal)
  }

  function ParseComparison(expr: string, literal: LiteralParser): Option<Comparison> {
    ParseFrom(Trim(expr), 0, literal)
  }

  method ParseComparisonText(text: string, literal: LiteralParser) returns (r: Option<Comparison>)
    ensures r == ParseComparison(text, literal)
  {
    var expr := Trim(text);
    var i := 0;
    while i < |OPERATORS|
      invariant 0 <= i <= |OPERATORS|
      invariant ParseComparison(text, literal) == ParseFrom(expr, i, literal)
    {
      var op := OPERATORS[i];
      var pos := Find(expr, OpText(op));
      if pos.Some? {
        return At(expr, op, pos.value, literal);
      }
      i := i + 1;
    }
    r := None;
  }

  predicate IsOpChar(c: char) {
    c == '=' || c == '!' || c == '<' || c == '>'
  }

  /** Text without operator characters or spaces at its ends. */
  predicate Operand(s: string) {
    s != [] && Trimmed(s) && forall i :: 0 <= i < |s| ==> !IsOpChar(s[i])
  }

  function Render(field: string, op: Operator, value: string): string {
    (field + [' ']) + (OpText(op) + ([' '] + value))
  }

  /** Only at the operator's own place does a rendered comparison hold operator characters. */
  lemma RenderedChars(field: string, op: Operator, value: string, i: nat)
    requires Operand(field) && Operand(value) && i < |Render(field, op, value)|
    ensures var s, p := Render(field, op, value), |field| + 1;
            IsOpChar(s[i]) <==> p <= i < p + |OpText(op)|
    ensures var p := |field| + 1;
            p <= i < p + |OpText(op)| ==> Render(field, op, value)[i] == OpText(op)[i - p]
  {
  }

  lemma FoundAt(s: string, pat: string, p: nat)
    requires pat != [] && MatchAt(s, p, pat) && forall i :: 0 <= i < p ==> s[i] != pat[0]
    ensures Find(s, pat) == Some(p)
  {
    forall i: nat | i < p
      ensures !MatchAt(s, i, pat)
    {
      if i + |pat| <= |s| {
        assert s[i..i + |pat|][0] == s[i];
      }
    }
  }

  lemma OwnOperatorFound(field: string, op: Operator, value: string)
    requires Operand(field) && Operand(value)
    ensures Find(Render(field, op, value), OpText(op)) == Some(|field| + 1)
  {
    var s, p := Render(field, op, value), |field| + 1;
    assert s[p..p + |OpText(op)|] == OpText(op);
    forall i | 0 <= i < p
      ensures s[i] != OpText(op)[0]
    {
      RenderedChars(field, op, value, i);
    }
    FoundAt(s, OpText(op), p);
  }

  /** No operator looked for earlier occurs in the text. */
  lemma EarlierNotFound(field: string, op: Operator, value: string, sought: Operator)
    requires Operand(field) && Operand(value) && Rank(sought) < Rank(op)
    ensures Find(Render(field, op, value), OpText(sought)) == None
  {
    var s, t := Render(field, op, value), OpText(sought);
    forall i: nat
      ensures !MatchAt(s, i, t)
    {
      EarlierNotAt(field, op, value, sought, i);
    }
  }

  lemma EarlierNotAt(field: string, op: Operator, value: string, sought: Operator, i: nat)
    requires Operand(field) && Operand(value) && Rank(sought) < Rank(op)
    ensures !MatchAt(Render(field, op, value), i, OpText(sought))
  {
    var s, p, t := Render(field, op, value), |field| + 1, OpText(sought);
    if i + |t| <= |s| {
      assert s[i..i + |t|][0] == s[i] && s[i..i + |t|][|t| - 1] == s[i + |t| - 1];
      RenderedChars(field, op, value, i);
      RenderedChars(field, op, value, i + |t| - 1);
    }
  }

  lemma {:induction false} ReachOperator(s: string, op: Operator, literal: LiteralParser, i: nat)
    requires i <= Rank(op) && forall sought :: Rank(sought) < Rank(op) ==> Find(s, OpText(sought)) == None
    ensures ParseFrom(s, i, literal) == ParseFrom(s, Rank(op), literal)
    decreases Rank(op) - i
  {
    if i < Rank(op) {
      assert Rank(OPERATORS[i]) == i;
      ReachOperator(s, op, literal, i + 1);
    }
  }

  /** Parsing a rendered comparison gives its field, operator and literal back. */
  lemma ParseRendered(field: string, op: Operator, value: string, literal: LiteralParser)
    requires Operand(field) && Operand(value) && ' ' !in field
    ensures ParseComparison(Render(field, op, value), literal)
         == if literal(value).None? then None else Some(Comparison(field, op, literal(value).value))
  {
    var s := Render(field, op, value);
    TrimTrimmed(s);
    ReachRendered(field, op, value, literal);
    OwnOperatorFound(field, op, value);
    RenderedAt(field, op, value, literal);
  }

  lemma ReachRendered(field: string, op: Operator, value: string, literal: LiteralParser)
    requires Operand(field) && Operand(value)
    ensures ParseFrom(Render(field, op, value), 0, literal) == ParseFrom(Render(field, op, value), Rank(op), literal)
  {
    forall sought: Operator | Rank(sought) < Rank(op)
      ensures Find(Render(field, op, value), OpText(sought)) == None
    {
      EarlierNotFound(field, op, value, sought);
    }
    ReachOperator(Render(field, op, value), op, literal, 0);
  }

  lemma AtIs(a: string, op: Operator, b: string, literal: LiteralParser, field: string, value: string)
    requires field != [] && ' ' !in field && Trim(a) == field && Trim(b) == value
    ensures MatchAt(a + (OpText(op) + b), |a|, OpText(op))
    ensures At(a + (OpText(op) + b), op, |a|, literal)
         == if literal(value).None? then None else Some(Comparison(field, op, literal(value).value))
  {
    CutRendered(a, OpText(op), b);
  }

  lemma RenderedAt(field: string, op: Operator, value: string, literal: LiteralParser)
    requires Operand(field) && Operand(value) && ' ' !in field
    ensures MatchAt(Render(field, op, value), |field| + 1, OpText(op))
    ensures At(Render(field, op, value), op, |field| + 1, literal)
         == if literal(value).None? then None else Some(Comparison(field, op, literal(value).value))
  {
    TrimPadded(field);
    TrimPadded(value);
    AtIs(field + [' '], op, [' '] + value, literal, field, value);
  }

  lemma TrimPadded(s: string)
    requires Trimmed(s)
    ensures Trim(s + [' ']) == s && Trim([' '] + s) == s
  {
    TrimTrimmed(s);
    TrimBack(s, ' ');
    TrimFront(' ', s);
  }

  lemma CutRendered(a: string, t: string, b: string)
    ensures var s := a + (t + b);
            s[..|a|] == a && s[|a|..|a| + |t|] == t && s[|a| + |t|..] == b
  {
  }

  // ---- exactly which texts are comparisons ----

  /** The operator occurs, first at `pos`, and no operator looked for earlier occurs at all. */
  ghost predicate FirstAt(t: string, op: Operator, pos: nat) {
    && MatchAt(t, pos, OpText(op)) && (forall i: nat :: i < pos ==> !MatchAt(t, i, OpText(op)))
    && forall sought: Operator, i: nat :: Rank(sought) < Rank(op) ==> !MatchAt(t, i, OpText(sought))
  }

  /** What stands before and behind the operator makes the comparison: a field without a space, and a literal. */
  ghost predicate Compares(t: string, pos: nat, literal: LiteralParser, c: Comparison) {
    && FirstAt(t, c.op, pos) && c.field == Trim(t[..pos]) && c.field != [] && ' ' !in c.field
    && literal(Trim(t[pos + |OpText(c.op)|..])) == Some(c.value)
  }

  lemma FirstIsFound(t: string, op: Operator, pos: nat, literal: LiteralParser)
    requires FirstAt(t, op, pos)
    ensures ParseFrom(t, 0, literal) == At(t, op, pos, literal)
  {
    forall sought: Operator | Rank(sought) < Rank(op)
      ensures Find(t, OpText(sought)) == None
    {
    }
    ReachOperator(t, op, literal, 0);
    var found := Find(t, OpText(op));
    assert found.Some? && !(found.value < pos) && !(pos < found.value);
  }

  lemma {:induction false} FoundIsFirst(t: string, i: nat, literal: LiteralParser) returns (op: Operator, pos: nat)
    requires i <= |OPERATORS| && ParseFrom(t, i, literal).Some?
    requires forall sought: Operator, j: nat :: Rank(sought) < i ==> !MatchAt(t, j, OpText(sought))
    ensures FirstAt(t, op, pos) && ParseFrom(t, i, literal) == At(t, op, pos, literal)
    decreases |OPERATORS| - i
  {
    var found := Find(t, OpText(OPERATORS[i]));
    assert forall sought: Operator :: Rank(sought) == i ==> sought == OPERATORS[i];
    assert Rank(OPERATORS[i]) == i;
    if found.Some? {
      op, pos := OPERATORS[i], found.value;
    } else {
      op, pos := FoundIsFirst(t, i + 1, literal);
    }
  }

  lemma AtIff(t: string, op: Operator, pos: nat, literal: LiteralParser, c: Comparison)
    requires FirstAt(t, op, pos)
    ensures At(t, op, pos, literal) == Some(c) <==> c.op == op && Compares(t, pos, literal, c)
  {
  }

  lemma ComparedIsRead(t: string, literal: LiteralParser, c: Comparison, pos: nat)
    requires Compares(t, pos, literal, c)
    ensures ParseFrom(t, 0, literal) == Some(c)
  {
    FirstIsFound(t, c.op, pos, literal);
    AtIff(t, c.op, pos, literal, c);
  }

  lemma ReadIsCompared(t: string, literal: LiteralParser, c: Comparison) returns (pos: nat)
    requires ParseFrom(t, 0, literal) == Some(c)
    ensures Compares(t, pos, literal, c)
  {
    var op, at := FoundIsFirst(t, 0, literal);
    pos := at;
    AtIff(t, op, pos, literal, c);
  }

  /** Of every text: it is read as a comparison exactly if its first operator stands between a field and a literal. */
  lemma ComparisonIff(text: string, literal: LiteralParser, c: Comparison)
    ensures ParseComparison(text, literal) == Some(c) <==> exists pos :: Compares(Trim(text), pos, literal, c)
  {
    var t := Trim(text);
    if ParseFrom(t, 0, literal) == Some(c) {
      var pos := ReadIsCompared(t, literal, c);
    }
    if pos :| Compares(t, pos, literal, c) {
      ComparedIsRead(t, literal, c, pos);
    }
  }

  /** A field with a space in it is never recognised. */
  lemma SpacedFieldRefused(field: string, op: Operator, value: string, literal: LiteralParser)
    requires Operand(field) && Operand(value) && ' ' in field
    ensures ParseComparison(Render(field, op, value), literal) == None
  {
    var s := Render(field, op, value);
    TrimTrimmed(s);
    ReachRendered(field, op, value, literal);
    OwnOperatorFound(field, op, value);
    TrimPadded(field);
    CutRendered(field + [' '], OpText(op), [' '] + value);
  }

  /** The comparison a text is read as, if its right-hand side is a literal. */
  ghost predicate ReadAs(text: string, field: string, op: Operator, value: string, literal: LiteralParser) {
    ParseComparison(text, literal)
    == if literal(value).None? then None else Some(Comparison(field, op, literal(value).value))
  }

  lemma RenderedText(field: string, op: Operator, sign: string, value: string)
    requires OpText(op) == sign
    ensures Render(field, op, value) == field + " " + sign + " " + value
  {
  }

  /** The six signs, each written between a field and a literal. */
  lemma SignsRead(field: string, value: string, literal: LiteralParser)
    requires Operand(field) && Operand(value) && ' ' !in field
    ensures ReadAs(field + " " + "==" + " " + value, field, Eq, value, literal)
    ensures ReadAs(field + " " + "!=" + " " + value, field, Ne, value, literal)
    ensures ReadAs(field + " " + ">=" + " " + value, field, Ge, value, literal)
    ensures ReadAs(field + " " + "<=" + " " + value, field, Le, value, literal)
    ensures ReadAs(field + " " + ">" + " " + value, field, Gt, value, literal)
    ensures ReadAs(field + " " + "<" + " " + value, field, Lt, value, literal)
  {
    forall op: Operator, sign: string | OpText(op) == sign
      ensures ReadAs(field + " " + sign + " " + value, field, op, value, literal)
    {
      RenderedText(field, op, sign, value);
      ParseRendered(field, op, value, literal);
    }
    assert OpText(Eq) == "==" && OpText(Ne) == "!=" && OpText(Ge) == ">=" && OpText(Le) == "<=";
    assert OpText(Gt) == ">" && OpText(Lt) == "<";
  }
}
