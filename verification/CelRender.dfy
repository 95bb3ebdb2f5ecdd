/** Writing a formula as filter text: reading the text again gives a formula of the same meaning. */
module CelRender {
  import opened Common
  import opened Text
  import opened Cel
  import opened CelSplit

  // ---- closed texts ----

  function Deeper(m: Mode, more: int): Mode {
    m.(depth := m.depth + more)
  }

  /** Reading on from `m`, no bracket below depth `d` is closed. */
  predicate Above(s: string, m: Mode, d: int)
    decreases |s|
  {
    m.depth >= d && (s != [] ==> Above(s[1..], Step(m, s[0]), d))
  }

  lemma {:induction false} AboveAppend(a: string, b: string, m: Mode, d: int)
    ensures Above(a + b, m, d) <==> Above(a, m, d) && Above(b, Scan(m, a), d)
    decreases |a|
  {
    if a == [] {
      assert a + b == b;
    } else {
      assert (a + b)[1..] == a[1..] + b;
      AboveAppend(a[1..], b, Step(m, a[0]), d);
    }
  }

  lemma {:induction false} DeeperScan(s: string, m: Mode, d: int, more: int)
    ensures Scan(Deeper(m, more), s) == Deeper(Scan(m, s), more)
    ensures Above(s, Deeper(m, more), d + more) <==> Above(s, m, d)
    decreases |s|
  {
    if s != [] {
      assert Step(Deeper(m, more), s[0]) == Deeper(Step(m, s[0]), more);
      DeeperScan(s[1..], Step(m, s[0]), d, more);
    }
  }

  lemma {:induction false} AboveLess(s: string, m: Mode, d: int, e: int)
    requires Above(s, m, d) && e <= d
    ensures Above(s, m, e)
    decreases |s|
  {
    if s != [] {
      AboveLess(s[1..], Step(m, s[0]), d, e);
    }
  }

  /** Every quote and bracket is closed, and none is closed that was not opened. */
  predicate Contained(s: string) {
    Balanced(s) && Above(s, OUTSIDE, 0)
  }

  lemma ContainedAppend(a: string, b: string)
    requires Contained(a) && Contained(b)
    ensures Contained(a + b)
  {
    BalancedAppend(a, b);
    AboveAppend(a, b, OUTSIDE, 0);
  }

  lemma {:induction false} NeutralAbove(s: string)
    requires Neutral(s)
    ensures Contained(s)
    decreases |s|
  {
    NeutralScan(s, 0);
    if s != [] {
      NeutralAbove(s[1..]);
    }
  }

  // ---- groups and negations ----

  const INSIDE: Mode := Mode(None, false, 1)

  function Grouped(s: string): string {
    ['('] + s + [')']
  }

  function Negated(s: string): string {
    ['!'] + Grouped(s)
  }

  lemma {:induction false} InsideCloses(s: string, c: char, m: Mode)
    requires Above(s, m, 1) && Scan(m, s) == INSIDE
    ensures ClosesLast(s + [')'], m) && FindTop(s + [')'], c, m) == None && !HasTop(s + [')'], c, m)
    decreases |s|
  {
    var t := s + [')'];
    if s == [] {
      assert t[1..] == [];
    } else {
      assert t[1..] == s[1..] + [')'] && t[0] == s[0];
      InsideCloses(s[1..], c, Step(m, s[0]));
    }
  }

  lemma GroupedIs(s: string, c: char)
    requires Contained(s) && c != '('
    ensures IsGroup(Grouped(s)) && FindTop(Grouped(s), c, OUTSIDE) == None && !HasTop(Grouped(s), c, OUTSIDE)
    ensures Trimmed(Grouped(s)) && Grouped(s)[1..|s| + 1] == s
  {
    var g := Grouped(s);
    DeeperScan(s, OUTSIDE, 0, 1);
    InsideCloses(s, c, INSIDE);
    assert g[0] == '(' && g[1..] == s + [')'] && Step(OUTSIDE, '(') == INSIDE;
  }

  /** Closing the bracket that was open. */
  lemma ClosingOne(s: string)
    requires Contained(s)
    ensures Scan(INSIDE, s + [')']) == OUTSIDE && Above(s + [')'], INSIDE, 0)
  {
    var close := [')'];
    DeeperScan(s, OUTSIDE, 0, 1);
    AboveLess(s, INSIDE, 1, 0);
    ScanAppend(INSIDE, s, close);
    AboveAppend(s, close, INSIDE, 0);
    assert close[1..] == [] && Step(INSIDE, close[0]) == OUTSIDE;
  }

  lemma GroupContained(s: string)
    requires Contained(s)
    ensures Contained(Grouped(s))
  {
    var g := Grouped(s);
    ClosingOne(s);
    assert g[0] == '(' && g[1..] == s + [')'] && Step(OUTSIDE, g[0]) == INSIDE;
  }

  lemma NegatedContained(s: string)
    requires Contained(s)
    ensures Contained(Negated(s))
  {
    GroupContained(s);
    NeutralAbove(['!']);
    ContainedAppend(['!'], Grouped(s));
  }

  lemma GroupReads(s: string)
    requires Contained(s)
    ensures Read(Grouped(s)) == Read(s)
  {
    var g := Grouped(s);
    GroupedIs(s, '|');
    GroupedIs(s, '&');
    GroupedIs(s, '?');
    TrimTrimmed(g);
    assert g[1..|g| - 1] == s;
  }

  lemma NegatedIs(s: string, c: char)
    requires Contained(s) && c != '(' && c != '!'
    ensures FindTop(Negated(s), c, OUTSIDE) == None && !HasTop(Negated(s), c, OUTSIDE) && Trimmed(Negated(s))
  {
    var g, t := Grouped(s), Negated(s);
    GroupedIs(s, c);
    assert t[0] == '!' && t[1..] == g && Step(OUTSIDE, '!') == OUTSIDE;
    FindTopOn(t, c, OUTSIDE);
  }

  lemma NegationReads(s: string)
    requires Contained(s)
    ensures Read(Negated(s)) == Not(Read(Grouped(s)))
  {
    var g, t := Grouped(s), Negated(s);
    NegatedIs(s, '|');
    NegatedIs(s, '&');
    NegatedIs(s, '?');
    GroupedIs(s, '|');
    assert t[0] == '!' && t[1..] == g;
    TrimTrimmed(g);
    TrimTrimmed(t);
  }

  /** CEL reads a negated group as the negation of what it encloses. */
  lemma NegatedMeans(s: string, parse: Parser, node: Node)
    requires Contained(s)
    ensures Holds(Negated(s), parse, node) <==> !Holds(s, parse, node)
  {
    GroupReads(s);
    NegationReads(s);
  }

  // ---- writing ----

  /** The parts with a spaced connective between them. */
  function JoinWith(parts: seq<string>, c: char): string {
    if parts == [] then []
    else if |parts| == 1 then parts[0]
    else Joint(parts[0] + [' '], c, [' '] + JoinWith(parts[1..], c))
  }

  /** A formula as filter text: members of a conjunction or disjunction are grouped if they are one themselves. */
  function Render(f: Formula): string {
    match f
    case Atom(t) => t
    case Not(g) => Negated(Render(g))
    case All(fs) => JoinWith(seq(|fs|, i requires 0 <= i < |fs| => Wrapped(fs[i], Render(fs[i]))), '&')
    case Any(fs) => JoinWith(seq(|fs|, i requires 0 <= i < |fs| => Wrapped(fs[i], Render(fs[i]))), '|')
  }

  function Wrapped(f: Formula, s: string): string {
    if f.All? || f.Any? then Grouped(s) else s
  }

  /** A text that can stand as a member: CEL reads no connective outside its quotes and brackets. */
  ghost predicate Member(s: string) {
    && s != [] && Trimmed(s) && Contained(s) && Unconditional(s)
    && FindTop(s, '&', OUTSIDE) == None && FindTop(s, '|', OUTSIDE) == None
  }

  ghost predicate AtomText(s: string) {
    Member(s) && !IsNegation(s) && !IsGroup(s)
  }

  /** Every conjunction and disjunction has members, and every atom is one for CEL. */
  ghost predicate Proper(f: Formula) {
    match f
    case Atom(t) => AtomText(t)
    case Not(g) => Proper(g)
    case All(fs) => fs != [] && forall i :: 0 <= i < |fs| ==> Proper(fs[i])
    case Any(fs) => fs != [] && forall i :: 0 <= i < |fs| ==> Proper(fs[i])
  }

  ghost predicate Members(parts: seq<string>) {
    forall i :: 0 <= i < |parts| ==> Member(parts[i])
  }

  // ---- members joined ----

  /** Behind a text without a doubled `c` outside, and another character, reading goes on as if from there. */
  lemma {:induction false} FindTopPast(a: string, x: char, b: string, c: char, m: Mode)
    requires FindTop(a, c, m) == None && x != c && FindTop([x] + b, c, Scan(m, a)) == None
    ensures FindTop(a + [x] + b, c, m) == None
    decreases |a|
  {
    var t := a + [x] + b;
    if a == [] {
      assert t == [x] + b;
    } else {
      assert t[0] == a[0] && t[1..] == a[1..] + [x] + b && t[1] == if |a| > 1 then a[1] else x;
      FindTopPast(a[1..], x, b, c, Step(m, a[0]));
    }
  }

  lemma SpacedNoTop(a: string, c: char, b: string, d: char)
    requires Balanced(a) && FindTop(a, d, OUTSIDE) == None && FindTop(b, d, OUTSIDE) == None
    requires Connective(c) && Connective(d) && c != d
    ensures FindTop(Joint(a + [' '], c, [' '] + b), d, OUTSIDE) == None
  {
    var t := [c, c] + ([' '] + b);
    FindTopFront(' ', b, d);
    FrontNoTop(c, [' '] + b, d);
    FrontNoTop(c, [c] + ([' '] + b), d);
    assert t == [c] + ([c] + ([' '] + b));
    FindTopFront(' ', t, d);
    FindTopPast(a, ' ', t, d, OUTSIDE);
    assert Joint(a + [' '], c, [' '] + b) == a + [' '] + t;
  }

  lemma FrontNoTop(x: char, s: string, d: char)
    requires Connective(x) && Connective(d) && x != d && FindTop(s, d, OUTSIDE) == None
    ensures FindTop([x] + s, d, OUTSIDE) == None
  {
    var t := [x] + s;
    assert t[0] == x && t[1..] == s && Step(OUTSIDE, x) == OUTSIDE;
    FindTopOn(t, d, OUTSIDE);
  }

  lemma SpacedText(a: string, c: char, b: string)
    ensures Joint(a + [' '], c, [' '] + b) == a + [' ', c, c, ' '] + b
  {
  }

  lemma SpacedContained(a: string, c: char, b: string)
    requires Contained(a) && Contained(b) && Connective(c)
    ensures Contained(Joint(a + [' '], c, [' '] + b))
  {
    var joint := [' ', c, c, ' '];
    SpacedText(a, c, b);
    NeutralAbove(joint);
    ContainedAppend(a, joint);
    ContainedAppend(a + joint, b);
  }

  lemma SpacedUnconditional(a: string, c: char, b: string)
    requires Contained(a) && Contained(b) && Connective(c) && Unconditional(a) && Unconditional(b)
    ensures Unconditional(Joint(a + [' '], c, [' '] + b))
  {
    BackSpace(a, ' ');
    FrontSpace(' ', b);
    JointBalanced(a + [' '], c, [' '] + b);
  }

  /** What members joined by `c` are: none of it but the connectives `c` stands outside. */
  ghost predicate JoinedBy(s: string, c: char) {
    && s != [] && Trimmed(s) && Contained(s) && Unconditional(s)
    && (c == '&' ==> FindTop(s, '|', OUTSIDE) == None)
  }

  lemma MemberJoined(a: string, c: char, b: string)
    requires Member(a) && JoinedBy(b, c) && Connective(c)
    ensures JoinedBy(Joint(a + [' '], c, [' '] + b), c)
  {
    var s := Joint(a + [' '], c, [' '] + b);
    SpacedContained(a, c, b);
    SpacedUnconditional(a, c, b);
    if c == '&' {
      SpacedNoTop(a, c, b, '|');
    }
    assert s[0] == a[0] && s[|s| - 1] == b[|b| - 1];
  }

  lemma {:induction false} JoinWithIs(parts: seq<string>, c: char)
    requires Members(parts) && parts != [] && Connective(c)
    ensures JoinedBy(JoinWith(parts, c), c)
    decreases |parts|
  {
    assert Member(parts[0]);
    if |parts| > 1 {
      JoinWithIs(parts[1..], c);
      MemberJoined(parts[0], c, JoinWith(parts[1..], c));
    }
  }

  /** All members hold, or for `||` one. */
  ghost predicate PartsHold(parts: seq<string>, c: char, parse: Parser, node: Node) {
    if c == '&' then EachHolds(parts, parse, node) else SomeHolds(parts, parse, node)
  }

  lemma PartsCons(parts: seq<string>, c: char, parse: Parser, node: Node)
    requires parts != []
    ensures PartsHold(parts, c, parse, node)
         == Combine(c, Holds(parts[0], parse, node), PartsHold(parts[1..], c, parse, node))
  {
    assert parts == [parts[0]] + parts[1..];
    if c == '&' {
      EachCons(parts[0], parts[1..], parse, node);
    } else {
      SomeCons(parts[0], parts[1..], parse, node);
    }
  }

  lemma {:induction false} JoinWithPieces(parts: seq<string>, c: char, parse: Parser, node: Node)
    requires Members(parts) && parts != [] && Connective(c)
    ensures PiecesHold(JoinWith(parts, c), c, parse, node) == PartsHold(parts, c, parse, node)
    decreases |parts|
  {
    var a := parts[0];
    assert Member(a);
    PartsCons(parts, c, parse, node);
    PiecesOne(a, c, parse, node);
    if |parts| == 1 {
      assert !SomeHolds(parts[1..], parse, node) && EachHolds(parts[1..], parse, node);
    } else {
      var b := JoinWith(parts[1..], c);
      JoinWithPieces(parts[1..], c, parse, node);
      PiecesSpaced(a, c, b, parse, node);
    }
  }

  /** Members joined hold exactly if all of them do, or for `||` one. */
  lemma JoinWithHolds(parts: seq<string>, c: char, parse: Parser, node: Node)
    requires Members(parts) && parts != [] && Connective(c)
    ensures Holds(JoinWith(parts, c), parse, node) <==> PartsHold(parts, c, parse, node)
  {
    var s := JoinWith(parts, c);
    JoinWithIs(parts, c);
    JoinWithPieces(parts, c, parse, node);
    if c == '&' {
      ReadsAll(s, parse, node);
    } else {
      ReadsAny(s, parse, node);
    }
  }

  // ---- the round trip ----

  /** What the text of a formula is like, and what it means. */
  ghost predicate Renders(f: Formula, s: string, parse: Parser, node: Node) {
    && s != [] && Contained(s)
    && ((f.Atom? || f.Not?) ==> Member(s))
    && (Holds(s, parse, node) <==> Means(f, parse, node))
  }

  lemma WrappedIs(f: Formula, s: string, parse: Parser, node: Node)
    requires Renders(f, s, parse, node)
    ensures Member(Wrapped(f, s))
    ensures Holds(Wrapped(f, s), parse, node) <==> Means(f, parse, node)
  {
    if f.All? || f.Any? {
      GroupedIs(s, '&');
      GroupedIs(s, '|');
      GroupedIs(s, '?');
      GroupContained(s);
      GroupReads(s);
    }
  }

  lemma AtomRenders(t: string, parse: Parser, node: Node)
    requires AtomText(t)
    ensures Renders(Atom(t), t, parse, node)
  {
    TrimTrimmed(t);
    assert Read(t) == Atom(t);
  }

  lemma NotRenders(g: Formula, s: string, parse: Parser, node: Node)
    requires Renders(g, s, parse, node)
    ensures Renders(Not(g), Negated(s), parse, node)
  {
    NegatedIs(s, '&');
    NegatedIs(s, '|');
    NegatedIs(s, '?');
    NegatedContained(s);
    NegatedMeans(s, parse, node);
  }

  lemma JoinRenders(f: Formula, fs: seq<Formula>, parts: seq<string>, c: char, parse: Parser, node: Node)
    requires fs != [] && |parts| == |fs| && Connective(c) && f == if c == '&' then All(fs) else Any(fs)
    requires forall i :: 0 <= i < |fs| ==> Member(parts[i]) && (Holds(parts[i], parse, node) <==> Means(fs[i], parse, node))
    ensures Renders(f, JoinWith(parts, c), parse, node)
  {
    JoinWithIs(parts, c);
    JoinWithHolds(parts, c, parse, node);
  }

  lemma {:induction false} RenderIs(f: Formula, parse: Parser, node: Node)
    requires Proper(f)
    ensures Renders(f, Render(f), parse, node)
  {
    match f
    case Atom(t) => AtomRenders(t, parse, node);
    case Not(g) =>
      RenderIs(g, parse, node);
      NotRenders(g, Render(g), parse, node);
    case All(fs) =>
      MembersRender(fs, parse, node);
      JoinRenders(f, fs, seq(|fs|, i requires 0 <= i < |fs| => Wrapped(fs[i], Render(fs[i]))), '&', parse, node);
    case Any(fs) =>
      MembersRender(fs, parse, node);
      JoinRenders(f, fs, seq(|fs|, i requires 0 <= i < |fs| => Wrapped(fs[i], Render(fs[i]))), '|', parse, node);
  }

  lemma {:induction false} MembersRender(fs: seq<Formula>, parse: Parser, node: Node)
    requires forall i :: 0 <= i < |fs| ==> Proper(fs[i])
    ensures forall i :: 0 <= i < |fs| ==>
              var s := Wrapped(fs[i], Render(fs[i]));
              Member(s) && (Holds(s, parse, node) <==> Means(fs[i], parse, node))
  {
    forall i | 0 <= i < |fs|
      ensures var s := Wrapped(fs[i], Render(fs[i]));
              Member(s) && (Holds(s, parse, node) <==> Means(fs[i], parse, node))
    {
      RenderIs(fs[i], parse, node);
      WrappedIs(fs[i], Render(fs[i]), parse, node);
    }
  }

  /** Reading what was written keeps the meaning, for every formula of proper atoms and every node. */
  lemma RenderHolds(f: Formula, parse: Parser, node: Node)
    requires Proper(f)
    ensures Holds(Render(f), parse, node) <==> Means(f, parse, node)
  {
    RenderIs(f, parse, node);
  }
}
