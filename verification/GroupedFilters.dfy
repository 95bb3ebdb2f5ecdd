/**
 * Two shapes of filter with which the planner goes wrong although it keeps every term it sees:
 * the term it uses an index for stands inside a negated group, or inside a quoted string.
 */
module GroupedFilters {
  import opened Common
  import opened Text
  import opened Predicate
  import opened Cel
  import opened CelSplit
  import opened CelRender
  import opened Planner

  // ---- a term inside a negated group ----

  lemma BareAtom(t: string)
    requires Clean(t) && Bare(t)
    ensures Read(t) == Atom(t)
  {
    assert !IsGroup(t);
    NeverNegation(t);
    ReadAtom(t);
  }

  lemma {:induction false} NeverNegation(t: string)
    requires Neutral(t)
    ensures !IsNegation(t)
    decreases |t|
  {
    if t != [] && t[0] == '!' {
      var rest := Trim(t[1..]);
      TrimNeutral(t[1..]);
      NeverNegation(rest);
    }
  }

  lemma {:induction false} TrimNeutral(s: string)
    requires Neutral(s)
    ensures Neutral(Trim(s)) && |Trim(s)| <= |s|
    decreases |s|
  {
    if s != [] && IsSpace(s[0]) {
      TrimFront(s[0], s[1..]);
      assert s == [s[0]] + s[1..];
      TrimNeutral(s[1..]);
    }
  }

  lemma DecoratedClean(s: string, front: string, back: string)
    requires Clean(s) && '&' !in front && '|' !in front && '&' !in back && '|' !in back
    requires (front != [] ==> !IsSpace(front[0])) && (back != [] ==> !IsSpace(back[|back| - 1]))
    ensures Clean(front + s + back)
  {
    var t := front + s + back;
    forall i: nat | i < |t|
      ensures !DoubleAt(t, i, '&') && !DoubleAt(t, i, '|')
    {
      if i + 1 < |t| {
        if i < |front| {
          assert t[i] == front[i];
        } else if i + 1 < |front| + |s| {
          assert !DoubleAt(s, i - |front|, '&') && !DoubleAt(s, i - |front|, '|');
          assert t[i] == s[i - |front|] && t[i + 1] == s[i + 1 - |front|];
        } else {
          assert t[i + 1] == back[i + 1 - |front| - |s|];
        }
      }
    }
    assert t[0] == if front == [] then s[0] else front[0];
    assert t[|t| - 1] == if back == [] then s[|s| - 1] else back[|back| - 1];
  }

  ghost predicate AllBare(terms: seq<string>) {
    forall i :: 0 <= i < |terms| ==> Bare(terms[i])
  }

  /** The terms the planner sees in a negated group. */
  function NegatedParts(terms: seq<string>): seq<string>
    requires |terms| >= 2
  {
    Closed(Opened(terms, ['!', '(']), [')'])
  }

  function Opened(parts: seq<string>, front: string): seq<string>
    requires parts != []
  {
    parts[0 := front + parts[0]]
  }

  function Closed(parts: seq<string>, back: string): seq<string>
    requires parts != []
  {
    parts[|parts| - 1 := parts[|parts| - 1] + back]
  }

  lemma JoinOpened(parts: seq<string>, front: string)
    requires |parts| >= 2
    ensures JoinAnd(Opened(parts, front)) == front + JoinAnd(parts)
  {
    assert Opened(parts, front)[1..] == parts[1..];
    PrependText(front, parts[0], JoinAnd(parts[1..]));
  }

  lemma PrependText(front: string, p: string, rest: string)
    ensures front + p + " && " + rest == front + (p + " && " + rest)
  {
  }

  lemma {:induction false} JoinClosed(parts: seq<string>, back: string)
    requires parts != []
    ensures JoinAnd(Closed(parts, back)) == JoinAnd(parts) + back
    decreases |parts|
  {
    if |parts| > 1 {
      assert Closed(parts, back)[1..] == Closed(parts[1..], back);
      JoinClosed(parts[1..], back);
      AppendText(parts[0], JoinAnd(parts[1..]), back);
    }
  }

  lemma AppendText(p: string, rest: string, back: string)
    ensures p + " && " + (rest + back) == p + " && " + rest + back
  {
  }

  lemma NegatedJoins(terms: seq<string>)
    requires |terms| >= 2
    ensures JoinAnd(NegatedParts(terms)) == Negated(JoinAnd(terms))
  {
    JoinClosed(Opened(terms, ['!', '(']), [')']);
    JoinOpened(terms, ['!', '(']);
    NegatedText(JoinAnd(terms));
  }

  lemma NegatedText(s: string)
    ensures ['!', '('] + s + [')'] == Negated(s)
  {
  }

  lemma {:induction false} BareJoin(terms: seq<string>)
    requires AllBare(terms)
    ensures Bare(JoinAnd(terms))
    decreases |terms|
  {
    if |terms| > 1 {
      BareJoin(terms[1..]);
      BareAppend(terms[0], JoinAnd(terms[1..]));
    }
  }

  lemma BareAppend(a: string, b: string)
    requires Bare(a) && Bare(b)
    ensures Bare(a + " && " + b)
  {
    var s, joint := a + " && " + b, " && ";
    assert Bare(joint);
    assert forall i :: 0 <= i < |s| ==> s[i] in a || s[i] in joint || s[i] in b;
  }

  lemma NegatedSplits(terms: seq<string>)
    requires |terms| >= 2 && AllClean(terms)
    ensures SplitBoolean(Negated(JoinAnd(terms))) == Some([NegatedParts(terms)])
  {
    OpenedClean(terms, ['!', '(']);
    ClosedClean(Opened(terms, ['!', '(']), [')']);
    NegatedJoins(terms);
    SplitJoined(NegatedParts(terms));
  }

  lemma OpenedClean(parts: seq<string>, front: string)
    requires parts != [] && AllClean(parts) && front != [] && '&' !in front && '|' !in front && !IsSpace(front[0])
    ensures AllClean(Opened(parts, front))
  {
    DecoratedClean(parts[0], front, []);
    assert front + parts[0] + [] == front + parts[0];
  }

  lemma ClosedClean(parts: seq<string>, back: string)
    requires parts != [] && AllClean(parts) && back != [] && '&' !in back && '|' !in back && !IsSpace(back[|back| - 1])
    ensures AllClean(Closed(parts, back))
  {
    var last := parts[|parts| - 1];
    DecoratedClean(last, [], back);
    assert [] + last + back == last + back;
  }

  /** A conjunction of bare terms fails where one of them does. */
  lemma OneFails(terms: seq<string>, k: nat, parse: Parser, node: Node)
    requires AllClean(terms) && AllBare(terms) && k < |terms| && !TermHolds(terms[k], parse, node)
    ensures !Holds(JoinAnd(terms), parse, node)
  {
    forall i | 0 <= i < |terms|
      ensures TidyTerm(terms[i])
    {
      BareIsTidy(terms[i]);
    }
    JoinedMeans(terms, parse, node);
    BareAtom(terms[k]);
    assert !Holds(terms[k], parse, node);
  }

  /**
   * A negated group with an inner term used for an index: the filter holds of the node on which
   * every comparison fails, and the plan does not return it, however many terms were recognised.
   */
  lemma NegatedTermIsLost(terms: seq<string>, expression: string, parts: seq<string>, schema: Schema,
                          preds: seq<Extracted>, i: nat, parse: Parser)
    requires AllClean(terms) && AllBare(terms) && |terms| >= 3
    requires expression == Negated(JoinAnd(terms)) && parts == NegatedParts(terms)
    requires preds == Recognised(parts, parse) && i < |preds| && 0 < preds[i].rawIndex < |terms| - 1
    requires PlanFor(schema, preds[i]).Some?
    ensures SplitBoolean(expression) == Some([parts])
    ensures !Agree(expression, schema, preds, Some(i), parse, NoNode)
  {
    NegatedSplits(terms);
    AcceptsTerm(schema, parts, parse, i, NoNode);
    NegatedHolds(terms, preds[i].rawIndex, parse, NoNode);
    LostOn(expression, schema, preds, i, parse, NoNode);
  }

  lemma NegatedHolds(terms: seq<string>, k: nat, parse: Parser, node: Node)
    requires AllClean(terms) && AllBare(terms) && 0 < k < |terms| - 1
    ensures NegatedParts(terms)[k] == terms[k]
    ensures !TermHolds(terms[k], parse, node) ==> Holds(Negated(JoinAnd(terms)), parse, node)
  {
    if !TermHolds(terms[k], parse, node) {
      OneFails(terms, k, parse, node);
      BareJoin(terms);
      NeutralAbove(JoinAnd(terms));
      NegatedMeans(JoinAnd(terms), parse, node);
    }
  }

  /** A plan whose index predicate fails where the expression holds is wrong there. */
  lemma LostOn(expression: string, schema: Schema, preds: seq<Extracted>, i: nat, parse: Parser, node: Node)
    requires i < |preds| && PlanFor(schema, preds[i]).Some? && !Accepts(PlanFor(schema, preds[i]).value, node)
    requires Holds(expression, parse, node)
    ensures !Agree(expression, schema, preds, Some(i), parse, node)
  {
  }

  /** A trimmed text without connective characters, quotes, brackets and question marks. */
  predicate Simple(s: string) {
    s != [] && Trimmed(s) && Bare(s) && '&' !in s && '|' !in s
  }

  lemma SimpleIs(s: string)
    requires Simple(s)
    ensures Clean(s) && Bare(s)
  {
  }

  /** The plan for the filter keeps every term, and yet is not faithful. */
  ghost predicate KeptButLost(expression: string, parts: seq<string>, schema: Schema, preds: seq<Extracted>, i: nat,
                              parse: Parser) {
    && SplitBoolean(expression) == Some([parts]) && preds == Recognised(parts, parse)
    && FirstBest(schema, preds, Some(i)) && Kept([parts], preds, Some(i))
    && !Faithful(expression, schema, preds, Some(i), parse)
  }

  lemma NegatedThree(terms: seq<string>, expression: string, parts: seq<string>, x: Comparison, a: Comparison,
                     schema: Schema, parse: Parser)
    requires |terms| == 3 && AllClean(terms) && AllBare(terms)
    requires expression == Negated(JoinAnd(terms)) && parts == NegatedParts(terms)
    requires parse(parts[0]) == Some(x) && parse(parts[1]) == Some(a) && parse(parts[2]) == None
    requires x.field != a.field && a.op == Eq && schema == map[a.field := IndexType.Equality]
    ensures KeptButLost(expression, parts, schema, Recognised(parts, parse), 1, parse)
  {
    TwoOfThree(parts, parse);
    NegatedTermIsLost(terms, expression, parts, schema, Recognised(parts, parse), 1, parse);
  }

  /** For instance `!(x > 0 && a == 1 && y > 0)` with an index on `a`: two of its three terms are recognised. */
  lemma NegatedInput(terms: seq<string>, expression: string, parts: seq<string>, schema: Schema, parse: Parser)
    requires terms == ["x > 0", "a == 1", "y > 0"]
    requires expression == Negated(JoinAnd(terms)) && parts == NegatedParts(terms)
    requires parse(parts[0]) == Some(Comparison("!(x", Gt, IntLiteral(0)))
    requires parse(parts[1]) == Some(Comparison("a", Eq, IntLiteral(1))) && parse(parts[2]) == None
    requires schema == map["a" := IndexType.Equality]
    ensures KeptButLost(expression, parts, schema, Recognised(parts, parse), 1, parse)
  {
    SimpleTerms(terms);
    var x, a := parse(parts[0]).value, parse(parts[1]).value;
    assert |x.field| == 3 && |a.field| == 1;
    NegatedThree(terms, expression, parts, x, a, schema, parse);
  }

  lemma SimpleTerms(terms: seq<string>)
    requires terms == ["x > 0", "a == 1", "y > 0"]
    ensures AllClean(terms) && AllBare(terms)
  {
    SimpleIs("x > 0");
    SimpleIs("a == 1");
    SimpleIs("y > 0");
  }

  lemma TwoOfThree(parts: seq<string>, parse: Parser)
    requires |parts| == 3 && parse(parts[0]).Some? && parse(parts[1]).Some? && parse(parts[2]).None?
    ensures var x, a := parse(parts[0]).value, parse(parts[1]).value;
            Recognised(parts, parse) == [Extracted(x.field, x.op, x.value, 0), Extracted(a.field, a.op, a.value, 1)]
  {
    RecognisedStep(parts, 0, parse);
    RecognisedStep(parts, 1, parse);
    RecognisedStep(parts, 2, parse);
    assert parts[..0] == [] && parts[..3] == parts;
  }

  // ---- a term inside a quoted string ----

  /** In a quote nothing but the quote itself matters. */
  lemma {:induction false} InQuote(v: string, c: char)
    requires IsQuote(c) && c !in v && '\\' !in v
    ensures Scan(Mode(Some(c), false, 0), v + [c]) == OUTSIDE
    ensures FindTop(v + [c], '&', Mode(Some(c), false, 0)) == None && !HasTop(v + [c], '?', Mode(Some(c), false, 0))
    decreases |v|
  {
    var t := v + [c];
    if v == [] {
      assert t[1..] == [];
    } else {
      assert t[1..] == v[1..] + [c];
      InQuote(v[1..], c);
    }
  }

  function Quoted(u: string, c: char, v: string): string {
    u + ([c] + (v + [c]))
  }

  lemma {:induction false} QuotedTop(u: string, c: char, v: string)
    requires Bare(u) && NoDouble(u, '&') && IsQuote(c) && c !in v && '\\' !in v
    ensures FindTop(Quoted(u, c, v), '&', OUTSIDE) == None && TidyTerm(Quoted(u, c, v))
    decreases |u|
  {
    var t := Quoted(u, c, v);
    if u == [] {
      assert t[0] == c && t[1..] == v + [c];
      InQuote(v, c);
      FindTopOn(t, '&', OUTSIDE);
    } else {
      assert t[0] == u[0] && t[1..] == Quoted(u[1..], c, v) && Step(OUTSIDE, u[0]) == OUTSIDE;
      assert forall i: nat :: DoubleAt(u[1..], i, '&') ==> DoubleAt(u, i + 1, '&');
      QuotedTop(u[1..], c, v);
      assert !DoubleAt(t, 0, '&') by {
        assert !DoubleAt(u, 0, '&');
        assert |u| == 1 ==> t[1] == c;
      }
      FindTopOn(t, '&', OUTSIDE);
    }
  }

  // The planner cuts `u'v0 && a && v2' && b`, where the quotes enclose `v0 && a && v2`, into four terms.

  function QuotedParts(u: string, c: char, inner: seq<string>): seq<string>
    requires |inner| >= 2
  {
    Closed(Opened(inner, u + [c]), [c])
  }

  lemma QuotedJoins(u: string, c: char, inner: seq<string>)
    requires |inner| >= 2
    ensures JoinAnd(QuotedParts(u, c, inner)) == Quoted(u, c, JoinAnd(inner))
  {
    JoinClosed(Opened(inner, u + [c]), [c]);
    JoinOpened(inner, u + [c]);
    QuotedText(u, c, JoinAnd(inner));
  }

  lemma QuotedText(u: string, c: char, v: string)
    ensures u + [c] + v + [c] == Quoted(u, c, v)
  {
  }

  ghost predicate Unquoted(parts: seq<string>, c: char) {
    forall i :: 0 <= i < |parts| ==> c !in parts[i] && '\\' !in parts[i]
  }

  lemma {:induction false} UnquotedJoin(parts: seq<string>, c: char)
    requires Unquoted(parts, c) && IsQuote(c)
    ensures c !in JoinAnd(parts) && '\\' !in JoinAnd(parts)
    decreases |parts|
  {
    if |parts| > 1 {
      UnquotedJoin(parts[1..], c);
      var s, joint := JoinAnd(parts), " && ";
      assert forall i :: 0 <= i < |s| ==> s[i] in parts[0] || s[i] in joint || s[i] in JoinAnd(parts[1..]);
    }
  }

  /** What stands in front of the quote: a field and an operator, say. */
  predicate Leads(u: string) {
    u != [] && !IsSpace(u[0]) && Bare(u) && '&' !in u && '|' !in u && u[0] != '!'
  }

  lemma QuotedAtom(u: string, c: char, inner: seq<string>)
    requires Leads(u) && IsQuote(c) && |inner| >= 2 && AllClean(inner) && Unquoted(inner, c)
    ensures var w := JoinAnd(QuotedParts(u, c, inner));
            TidyTerm(w) && FindTop(w, '&', OUTSIDE) == None && AllClean(QuotedParts(u, c, inner)) && Read(w) == Atom(w)
  {
    var w := JoinAnd(QuotedParts(u, c, inner));
    QuotedJoins(u, c, inner);
    UnquotedJoin(inner, c);
    QuotedTop(u, c, JoinAnd(inner));
    QuotedClean(u, c, inner);
    JoinClean(QuotedParts(u, c, inner));
    NoTopSplit(w, '|');
    TrimTrimmed(w);
    assert w[0] == u[0];
  }

  lemma QuotedClean(u: string, c: char, inner: seq<string>)
    requires Leads(u) && IsQuote(c) && |inner| >= 2 && AllClean(inner)
    ensures AllClean(QuotedParts(u, c, inner))
  {
    OpenedClean(inner, u + [c]);
    ClosedClean(Opened(inner, u + [c]), [c]);
  }

  /** Every comparison holds but one. */
  function AllBut(a: Comparison): Node {
    Node((f, o, v) => Comparison(f, o, v) != a, s => true)
  }

  lemma QuotedHolds(w: string, first: seq<string>, b: string, parse: Parser, node: Node)
    requires first != [] && AllClean(first) && w == JoinAnd(first) && TidyTerm(w) && FindTop(w, '&', OUTSIDE) == None
    requires Read(w) == Atom(w) && Clean(b) && Bare(b)
    ensures Holds(JoinAnd(first + [b]), parse, node) <==> TermHolds(w, parse, node) && TermHolds(b, parse, node)
  {
    BareIsTidy(b);
    BareAtom(b);
    JoinUnconditional(first, [b]);
    JoinedOuter(first + [b], parse, node);
    JoinHoldsAppend(first, [b], parse, node);
    PiecesOne(w, '&', parse, node);
    CleanNoDouble(b);
    FindTopNone(b, '&', OUTSIDE);
    PiecesOne(b, '&', parse, node);
  }

  /**
   * A comparison inside a quoted string used for an index: the filter holds of the node on which
   * just that comparison fails, and the plan does not return it.
   */
  lemma QuotedTermIsLost(u: string, c: char, inner: seq<string>, b: string, expression: string, parts: seq<string>,
                         schema: Schema, preds: seq<Extracted>, i: nat, parse: Parser)
    requires Leads(u) && IsQuote(c) && |inner| >= 3 && AllClean(inner) && Unquoted(inner, c) && Clean(b) && Bare(b)
    requires parts == QuotedParts(u, c, inner) + [b] && expression == JoinAnd(parts)
    requires preds == Recognised(parts, parse) && i < |preds| && 0 < preds[i].rawIndex < |inner| - 1
    requires PlanFor(schema, preds[i]).Some?
    requires var a := parse(parts[preds[i].rawIndex]);
             parse(JoinAnd(QuotedParts(u, c, inner))) != a && parse(b) != a
    ensures SplitBoolean(expression) == Some([parts])
    ensures !Faithful(expression, schema, preds, Some(i), parse)
  {
    var first := QuotedParts(u, c, inner);
    RecognisedTerm(parts, parse, i);
    var node := AllBut(parse(parts[preds[i].rawIndex]).value);
    QuotedAtom(u, c, inner);
    SplitJoined(parts);
    QuotedHolds(JoinAnd(first), first, b, parse, node);
    AcceptsTerm(schema, parts, parse, i, node);
    LostOn(expression, schema, preds, i, parse, node);
  }
}
