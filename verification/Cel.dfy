/**
 * What a filter text means when it is evaluated as CEL: connectives count where they stand outside
 * quotes and brackets, `||` binds weaker than `&&`, and parentheses and negation group. The planner
 * (crates/pelago-query/src/planner.rs) cuts the same text at every `&&` and `||` it finds.
 */
module Cel {
  import opened Common
  import opened Text
  import opened Predicate

  // ---- single terms ----

  /** `parse_comparison` for some literal syntax; planning does not depend on which. */
  type Parser = string -> Option<Comparison>

  /** One node, as far as a filter can see it. */
  datatype Node = Node(compares: (string, Operator, Literal) -> bool, other: string -> bool)

  /** A text without connectives: a comparison, or anything else CEL may evaluate. */
  predicate TermHolds(part: string, parse: Parser, node: Node) {
    var c := parse(part);
    if c.Some? then node.compares(c.value.field, c.value.op, c.value.value) else node.other(part)
  }

  // ---- quotes and brackets ----

  /** Where a reader of the text stands: in which quote, behind a backslash, how deep in brackets. */
  datatype Mode = Mode(quote: Option<char>, escaped: bool, depth: int)

  const OUTSIDE: Mode := Mode(None, false, 0)

  predicate Opens(c: char) {
    c == '(' || c == '[' || c == '{'
  }

  predicate Closes(c: char) {
    c == ')' || c == ']' || c == '}'
  }

  predicate IsQuote(c: char) {
    c == '"' || c == '\''
  }

  function Step(m: Mode, c: char): Mode {
    if m.escaped then m.(escaped := false)
    else if m.quote.Some? then
      if c == '\\' then m.(escaped := true) else if c == m.quote.value then m.(quote := None) else m
    else if IsQuote(c) then m.(quote := Some(c))
    else if Opens(c) then m.(depth := m.depth + 1)
    else if Closes(c) then m.(depth := m.depth - 1)
    else m
  }

  function Scan(m: Mode, s: string): Mode
    decreases |s|
  {
    if s == [] then m else Scan(Step(m, s[0]), s[1..])
  }

  /** Every quote and bracket is closed. */
  predicate Balanced(s: string) {
    Scan(OUTSIDE, s) == OUTSIDE
  }

  lemma {:induction false} ScanAppend(m: Mode, a: string, b: string)
    ensures Scan(m, a + b) == Scan(Scan(m, a), b)
    decreases |a|
  {
    if a == [] {
      assert a + b == b;
    } else {
      assert (a + b)[1..] == a[1..] + b;
      ScanAppend(Step(m, a[0]), a[1..], b);
    }
  }

  lemma BalancedAppend(a: string, b: string)
    requires Balanced(a)
    ensures Balanced(a + b) <==> Balanced(b)
  {
    ScanAppend(OUTSIDE, a, b);
  }

  /** Spaces, `&` and `|` neither quote nor bracket. */
  predicate Neutral(s: string) {
    forall i :: 0 <= i < |s| ==> !IsQuote(s[i]) && !Opens(s[i]) && !Closes(s[i])
  }

  lemma {:induction false} NeutralScan(s: string, depth: int)
    requires Neutral(s)
    ensures Scan(Mode(None, false, depth), s) == Mode(None, false, depth)
    decreases |s|
  {
    if s != [] {
      NeutralScan(s[1..], depth);
    }
  }

  // ---- connectives outside quotes and brackets ----

  /** The first doubled `c` outside quotes and brackets, reading on from mode `m`. */
  function FindTop(s: string, c: char, m: Mode): (r: Option<nat>)
    ensures r.Some? ==> DoubleAt(s, r.value, c)
  {
    if |s| < 2 then None
    else if m == OUTSIDE && s[0] == c && s[1] == c then Some(0)
    else
      var r := FindTop(s[1..], c, Step(m, s[0]));
      if r.None? then None else Some(r.value + 1)
  }

  function TopSplit(s: string, c: char): (r: seq<string>)
    ensures r != [] && (|r| == 1 ==> r == [s])
    ensures forall i :: 0 <= i < |r| ==> |r[i]| <= |s| && (|r| > 1 ==> |r[i]| < |s|)
    decreases |s|
  {
    var at := FindTop(s, c, OUTSIDE);
    if at.None? then [s] else [s[..at.value]] + TopSplit(s[at.value + 2..], c)
  }

  /** The character stands somewhere outside quotes and brackets. */
  predicate HasTop(s: string, c: char, m: Mode) {
    s != [] && ((m == OUTSIDE && s[0] == c) || HasTop(s[1..], c, Step(m, s[0])))
  }

  lemma {:induction false} HasTopAppend(a: string, b: string, c: char, m: Mode)
    ensures HasTop(a + b, c, m) <==> HasTop(a, c, m) || HasTop(b, c, Scan(m, a))
    decreases |a|
  {
    if a == [] {
      assert a + b == b;
    } else {
      assert (a + b)[1..] == a[1..] + b;
      HasTopAppend(a[1..], b, c, Step(m, a[0]));
    }
  }

  /** No conditional operator outside quotes and brackets. */
  predicate Unconditional(s: string) {
    !HasTop(s, '?', OUTSIDE)
  }

  /** From mode `m` on, the text comes back outside with its last character only. */
  predicate ClosesLast(s: string, m: Mode) {
    s != [] && if |s| == 1 then Step(m, s[0]) == OUTSIDE
               else Step(m, s[0]) != OUTSIDE && ClosesLast(s[1..], Step(m, s[0]))
  }

  predicate IsGroup(s: string) {
    |s| >= 2 && s[0] == '(' && s[|s| - 1] == ')' && ClosesLast(s, OUTSIDE)
  }

  /** Negations in front of a group. */
  predicate IsNegation(s: string)
    decreases |s|
  {
    s != [] && s[0] == '!' &&
    var rest := Trim(s[1..]);
    IsGroup(rest) || IsNegation(rest)
  }

  // ---- reading and meaning ----

  datatype Formula = Atom(text: string) | Not(f: Formula) | All(fs: seq<Formula>) | Any(fs: seq<Formula>)

  function Read(s: string): Formula
    decreases |s|
  {
    var t := Trim(s);
    var ors, ands := TopSplit(t, '|'), TopSplit(t, '&');
    if !Unconditional(t) then Atom(t)
    else if |ors| > 1 then Any(seq(|ors|, i requires 0 <= i < |ors| => Read(ors[i])))
    else if |ands| > 1 then All(seq(|ands|, i requires 0 <= i < |ands| => Read(ands[i])))
    else if IsNegation(t) then Not(Read(t[1..]))
    else if IsGroup(t) then Read(t[1..|t| - 1])
    else Atom(t)
  }

  predicate Means(f: Formula, parse: Parser, node: Node) {
    match f
    case Atom(t) => TermHolds(t, parse, node)
    case Not(g) => !Means(g, parse, node)
    case All(fs) => forall i :: 0 <= i < |fs| ==> Means(fs[i], parse, node)
    case Any(fs) => exists i :: 0 <= i < |fs| && Means(fs[i], parse, node)
  }

  /** The filter text holds of the node. */
  predicate Holds(expression: string, parse: Parser, node: Node) {
    Means(Read(expression), parse, node)
  }
}
