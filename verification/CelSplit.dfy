/** Where cutting a filter at every connective agrees with reading it as CEL. */
module CelSplit {
  import opened Common
  import opened Text
  import opened Predicate
  import opened Cel

  // ---- cutting outside quotes and brackets ----

  lemma {:induction false} FindTopNone(s: string, c: char, m: Mode)
    requires NoDouble(s, c)
    ensures FindTop(s, c, m) == None
    decreases |s|
  {
    if |s| >= 2 {
      assert !DoubleAt(s, 0, c);
      assert forall i: nat :: DoubleAt(s[1..], i, c) ==> DoubleAt(s, i + 1, c);
      FindTopNone(s[1..], c, Step(m, s[0]));
    }
  }

  lemma NoTopSplit(s: string, c: char)
    requires NoDouble(s, c)
    ensures TopSplit(s, c) == [s]
  {
    FindTopNone(s, c, OUTSIDE);
  }

  /** A first occurrence that stands outside is the one found. */
  lemma {:induction false} FindTopIs(s: string, c: char, n: nat, m: Mode)
    requires DoubleAt(s, n, c) && (forall i: nat :: i < n ==> !DoubleAt(s, i, c)) && Scan(m, s[..n]) == OUTSIDE
    ensures FindTop(s, c, m) == Some(n)
    decreases n
  {
    if n > 0 {
      assert !DoubleAt(s, 0, c);
      assert forall i: nat :: DoubleAt(s[1..], i, c) == DoubleAt(s, i + 1, c);
      assert s[..n][1..] == s[1..][..n - 1];
      FindTopIs(s[1..], c, n - 1, Step(m, s[0]));
    }
  }

  ghost predicate AllBalanced(parts: seq<string>) {
    forall i :: 0 <= i < |parts| ==> Balanced(parts[i])
  }

  ghost predicate AllUnconditional(parts: seq<string>) {
    forall i :: 0 <= i < |parts| ==> Unconditional(parts[i])
  }

  /** The first connective is the first outside if what stands before it is balanced. */
  lemma FirstIsTop(s: string, c: char, n: nat)
    requires FindDouble(s, c) == Some(n) && Balanced(s[..n])
    ensures FindTop(s, c, OUTSIDE) == Some(n)
  {
    FindTopIs(s, c, n, OUTSIDE);
  }

  /** If every piece of a plain cut is balanced, all cuts were outside quotes and brackets. */
  lemma {:induction false} SplitIsTop(s: string, c: char)
    requires AllBalanced(Split(s, c))
    ensures TopSplit(s, c) == Split(s, c)
    decreases |s|
  {
    var at := FindDouble(s, c);
    if at.None? {
      NoTopSplit(s, c);
    } else {
      var n := at.value;
      SplitCons(s, c);
      SplitIsTop(s[n + 2..], c);
      FirstIsTop(s, c, n);
      SameCut(s, c, n);
    }
  }

  lemma SameCut(s: string, c: char, n: nat)
    requires FindDouble(s, c) == Some(n) && FindTop(s, c, OUTSIDE) == Some(n)
    requires TopSplit(s[n + 2..], c) == Split(s[n + 2..], c)
    ensures TopSplit(s, c) == Split(s, c)
  {
  }

  predicate Connective(c: char) {
    c == '&' || c == '|'
  }

  /** A text without quotes, brackets and question marks. */
  predicate Bare(s: string) {
    Neutral(s) && '?' !in s
  }

  lemma {:induction false} NowhereIn(s: string, c: char, m: Mode)
    requires c !in s
    ensures !HasTop(s, c, m)
    decreases |s|
  {
    if s != [] {
      NowhereIn(s[1..], c, Step(m, s[0]));
    }
  }

  lemma BareIsTidy(s: string)
    requires Bare(s)
    ensures Balanced(s) && Unconditional(s)
  {
    NeutralScan(s, 0);
    NowhereIn(s, '?', OUTSIDE);
  }

  lemma Joined(a: string, joint: string, b: string)
    requires Balanced(a) && Balanced(joint) && Unconditional(joint)
    ensures Balanced(a + (joint + b)) <==> Balanced(b)
    ensures Unconditional(a + (joint + b)) <==> Unconditional(a) && Unconditional(b)
  {
    BalancedAppend(a, joint + b);
    BalancedAppend(joint, b);
    HasTopAppend(a, joint + b, '?', OUTSIDE);
    HasTopAppend(joint, b, '?', OUTSIDE);
  }

  /** Two texts with a connective between them. */
  function Joint(a: string, c: char, b: string): (s: string)
    ensures |s| == |a| + 2 + |b|
    ensures forall i :: 0 <= i < |a| ==> s[i] == a[i]
    ensures s[|a|] == c && s[|a| + 1] == c
    ensures forall i :: 0 <= i < |b| ==> s[|a| + 2 + i] == b[i]
  {
    a + [c, c] + b
  }

  lemma CutIsJoint(s: string, n: nat, c: char)
    requires DoubleAt(s, n, c)
    ensures s == Joint(s[..n], c, s[n + 2..])
  {
  }

  lemma JointBalanced(a: string, c: char, b: string)
    requires Balanced(a) && Connective(c)
    ensures Balanced(Joint(a, c, b)) <==> Balanced(b)
    ensures Unconditional(Joint(a, c, b)) <==> Unconditional(a) && Unconditional(b)
  {
    BareIsTidy([c, c]);
    Joined(a, [c, c], b);
    assert Joint(a, c, b) == a + ([c, c] + b);
  }

  lemma SplitCons(s: string, c: char)
    requires FindDouble(s, c).Some?
    ensures var n := FindDouble(s, c).value;
            var rest := Split(s[n + 2..], c);
            && |Split(s, c)| == |rest| + 1 && Split(s, c)[0] == s[..n]
            && (AllBalanced(Split(s, c)) ==> Balanced(s[..n]) && AllBalanced(rest))
            && (AllUnconditional(Split(s, c)) ==> Unconditional(s[..n]) && AllUnconditional(rest))
  {
    var n := FindDouble(s, c).value;
    ConsTidy(s[..n], Split(s[n + 2..], c));
  }

  lemma ConsTidy(x: string, rest: seq<string>)
    ensures AllBalanced([x] + rest) ==> Balanced(x) && AllBalanced(rest)
    ensures AllUnconditional([x] + rest) ==> Unconditional(x) && AllUnconditional(rest)
  {
    var all := [x] + rest;
    assert all[0] == x;
    assert forall i :: 0 <= i < |rest| ==> rest[i] == all[i + 1];
  }

  lemma {:induction false} SplitWhole(s: string, c: char)
    requires Connective(c) && AllBalanced(Split(s, c))
    ensures Balanced(s)
    ensures AllUnconditional(Split(s, c)) ==> Unconditional(s)
    decreases |s|
  {
    var at := FindDouble(s, c);
    if at.None? {
      assert Split(s, c)[0] == s;
    } else {
      var a, b := s[..at.value], s[at.value + 2..];
      SplitCons(s, c);
      SplitWhole(b, c);
      CutIsJoint(s, at.value, c);
      JointBalanced(a, c, b);
    }
  }

  // ---- spaces ----

  lemma FrontSpace(c: char, s: string)
    requires IsSpace(c)
    ensures Balanced([c] + s) <==> Balanced(s)
    ensures Unconditional([c] + s) <==> Unconditional(s)
  {
    BareIsTidy([c]);
    BalancedAppend([c], s);
    HasTopAppend([c], s, '?', OUTSIDE);
  }

  lemma BackSpace(s: string, c: char)
    requires IsSpace(c) && Balanced(s)
    ensures Balanced(s + [c])
    ensures Unconditional(s + [c]) <==> Unconditional(s)
  {
    BareIsTidy([c]);
    BalancedAppend(s, [c]);
    HasTopAppend(s, [c], '?', OUTSIDE);
  }

  lemma {:induction false} TrimEndBalanced(s: string)
    requires Balanced(TrimEnd(s))
    ensures Balanced(s) && (Unconditional(s) <==> Unconditional(TrimEnd(s)))
    decreases |s|
  {
    if s != [] && IsSpace(s[|s| - 1]) {
      var front := s[..|s| - 1];
      TrimEndBalanced(front);
      BackSpace(front, s[|s| - 1]);
      assert s == front + [s[|s| - 1]];
    }
  }

  /** Spaces at the ends of a balanced text change nothing. */
  lemma {:induction false} TrimBalanced(s: string)
    requires Balanced(Trim(s))
    ensures Balanced(s) && (Unconditional(s) <==> Unconditional(Trim(s)))
    decreases |s|
  {
    if s != [] && IsSpace(s[0]) {
      assert s == [s[0]] + s[1..];
      TrimFront(s[0], s[1..]);
      TrimBalanced(s[1..]);
      FrontSpace(s[0], s[1..]);
    } else {
      TrimEndBalanced(s);
    }
  }

  lemma ReadTrim(s: string)
    ensures Read(Trim(s)) == Read(s)
  {
    TrimTrimmed(Trim(s));
  }

  // ---- reading the pieces ----

  /** All pieces hold. */
  predicate EachHolds(parts: seq<string>, parse: Parser, node: Node) {
    forall i :: 0 <= i < |parts| ==> Holds(parts[i], parse, node)
  }

  predicate SomeHolds(parts: seq<string>, parse: Parser, node: Node) {
    exists i :: 0 <= i < |parts| && Holds(parts[i], parse, node)
  }

  lemma ReadsAny(t: string, parse: Parser, node: Node)
    requires Trimmed(t) && Unconditional(t)
    ensures Holds(t, parse, node) <==> SomeHolds(TopSplit(t, '|'), parse, node)
  {
    TrimTrimmed(t);
    var ors := TopSplit(t, '|');
    if |ors| > 1 {
      var fs := seq(|ors|, i requires 0 <= i < |ors| => Read(ors[i]));
      assert Read(t) == Any(fs);
      assert forall i :: 0 <= i < |ors| ==> (Means(fs[i], parse, node) <==> Holds(ors[i], parse, node));
    } else {
      assert ors == [t] && ors[0] == t;
    }
  }

  lemma ReadsAll(t: string, parse: Parser, node: Node)
    requires Trimmed(t) && Unconditional(t) && TopSplit(t, '|') == [t]
    ensures Holds(t, parse, node) <==> EachHolds(TopSplit(t, '&'), parse, node)
  {
    TrimTrimmed(t);
    var ands := TopSplit(t, '&');
    if |ands| > 1 {
      var fs := seq(|ands|, i requires 0 <= i < |ands| => Read(ands[i]));
      assert Read(t) == All(fs);
      assert forall i :: 0 <= i < |ands| ==> (Means(fs[i], parse, node) <==> Holds(ands[i], parse, node));
    } else {
      assert ands == [t] && ands[0] == t;
    }
  }

  lemma EachTrimmed(parts: seq<string>, parse: Parser, node: Node)
    ensures EachHolds(TrimAll(parts), parse, node) <==> EachHolds(parts, parse, node)
  {
    forall i | 0 <= i < |parts|
      ensures Holds(TrimAll(parts)[i], parse, node) <==> Holds(parts[i], parse, node)
    {
      ReadTrim(parts[i]);
    }
  }

  // ---- tidy expressions ----

  /** The term closes its quotes and brackets and has no conditional operator outside them. */
  predicate TidyTerm(t: string) {
    Balanced(t) && Unconditional(t)
  }

  /** Every term the plain cut gives is tidy: no connective stands in quotes or brackets. */
  ghost predicate TidyParts(parts: seq<string>) {
    forall i :: 0 <= i < |parts| ==> TidyTerm(parts[i])
  }

  ghost predicate Tidy(groups: seq<seq<string>>) {
    forall g :: 0 <= g < |groups| ==> TidyParts(groups[g])
  }

  lemma TidyRaw(raw: seq<string>)
    requires TidyParts(TrimAll(raw))
    ensures AllBalanced(raw) && AllUnconditional(raw)
  {
    forall i | 0 <= i < |raw|
      ensures Balanced(raw[i]) && Unconditional(raw[i])
    {
      assert TidyTerm(TrimAll(raw)[i]);
      TrimBalanced(raw[i]);
    }
  }

  /** An OR-part with tidy terms is their conjunction. */
  lemma TidyGroup(orPart: string, parse: Parser, node: Node)
    requires NoDouble(orPart, '|') && Group(orPart).Some? && TidyParts(Group(orPart).value)
    ensures Holds(orPart, parse, node) <==> EachHolds(Group(orPart).value, parse, node)
    ensures Balanced(orPart) && Unconditional(orPart)
  {
    var t := Trim(orPart);
    var raw := Split(t, '&');
    TidyRaw(raw);
    SplitIsTop(t, '&');
    SplitWhole(t, '&');
    TrimBalanced(orPart);
    TrimNoDouble(orPart, '|');
    NoTopSplit(t, '|');
    ReadsAll(t, parse, node);
    EachTrimmed(raw, parse, node);
    ReadTrim(orPart);
  }

  lemma {:induction false} SplitPieces(s: string, c: char)
    ensures forall i :: 0 <= i < |Split(s, c)| ==> NoDouble(Split(s, c)[i], c)
    decreases |s|
  {
    var at := FindDouble(s, c);
    if at.Some? {
      assert forall i: nat :: DoubleAt(s[..at.value], i, c) ==> DoubleAt(s, i, c);
      SplitPieces(s[at.value + 2..], c);
    }
  }

  type Grouping = string -> Option<seq<string>>

  type GroupingAll = seq<string> -> Option<seq<seq<string>>>

  /** All parts are grouped exactly if the front and the last one are. */
  predicate PartByPart(group: Grouping, all: GroupingAll, orParts: seq<string>) {
    if orParts == [] then all(orParts) == Some([])
    else
      var front, last := all(orParts[..|orParts| - 1]), group(orParts[|orParts| - 1]);
      all(orParts) == if front.None? || last.None? then None else Some(front.value + [last.value])
  }

  lemma {:induction false} PartsAt(group: Grouping, all: GroupingAll, orParts: seq<string>)
    requires (forall p: seq<string> :: PartByPart(group, all, p)) && all(orParts).Some?
    ensures |all(orParts).value| == |orParts|
    ensures forall g :: 0 <= g < |orParts| ==> group(orParts[g]) == Some(all(orParts).value[g])
    decreases |orParts|
  {
    assert PartByPart(group, all, orParts);
    if orParts != [] {
      var front := orParts[..|orParts| - 1];
      PartsAt(group, all, front);
      assert forall g :: 0 <= g < |front| ==> front[g] == orParts[g];
    }
  }

  lemma GroupsAt(orParts: seq<string>)
    requires Groups(orParts).Some?
    ensures |Groups(orParts).value| == |orParts|
    ensures forall g :: 0 <= g < |orParts| ==> Group(orParts[g]) == Some(Groups(orParts).value[g])
  {
    forall p: seq<string>
      ensures PartByPart(Group, Groups, p)
    {
    }
    PartsAt(Group, Groups, orParts);
  }

  /** A tidy expression is the disjunction of the conjunctions of its terms. */
  lemma TidyMeans(expression: string, groups: seq<seq<string>>, parse: Parser, node: Node)
    requires SplitBoolean(expression) == Some(groups) && Tidy(groups)
    ensures Holds(expression, parse, node) <==> exists g :: 0 <= g < |groups| && EachHolds(groups[g], parse, node)
  {
    var t := Trim(expression);
    var orParts := Split(t, '|');
    SplitPieces(t, '|');
    GroupsAt(orParts);
    forall g | 0 <= g < |orParts|
      ensures Holds(orParts[g], parse, node) <==> EachHolds(groups[g], parse, node)
      ensures Balanced(orParts[g]) && Unconditional(orParts[g])
    {
      assert TidyParts(groups[g]);
      TidyGroup(orParts[g], parse, node);
    }
    SplitIsTop(t, '|');
    SplitWhole(t, '|');
    ReadsAny(t, parse, node);
    ReadTrim(expression);
  }

  // ---- pieces outside all quotes and brackets ----

  /** The pieces between connectives outside quotes and brackets hold, all of them or, for `||`, one. */
  predicate PiecesHold(s: string, c: char, parse: Parser, node: Node) {
    if c == '&' then EachHolds(TopSplit(s, c), parse, node) else SomeHolds(TopSplit(s, c), parse, node)
  }

  predicate Combine(c: char, a: bool, b: bool) {
    if c == '&' then a && b else a || b
  }

  lemma EachCons(x: string, rest: seq<string>, parse: Parser, node: Node)
    ensures EachHolds([x] + rest, parse, node) <==> Holds(x, parse, node) && EachHolds(rest, parse, node)
  {
    var all := [x] + rest;
    assert all[0] == x;
    assert forall i :: 0 <= i < |rest| ==> all[i + 1] == rest[i];
    assert forall i :: 1 <= i < |all| ==> all[i] == rest[i - 1];
  }

  lemma SomeCons(x: string, rest: seq<string>, parse: Parser, node: Node)
    ensures SomeHolds([x] + rest, parse, node) <==> Holds(x, parse, node) || SomeHolds(rest, parse, node)
  {
    var all := [x] + rest;
    assert all[0] == x;
    assert forall i :: 0 <= i < |rest| ==> all[i + 1] == rest[i];
    assert forall i :: 1 <= i < |all| ==> all[i] == rest[i - 1];
  }

  lemma TopSplitAt(s: string, c: char, n: nat)
    requires FindTop(s, c, OUTSIDE) == Some(n)
    ensures TopSplit(s, c) == [s[..n]] + TopSplit(s[n + 2..], c)
  {
  }

  lemma PiecesAt(s: string, c: char, n: nat, parse: Parser, node: Node)
    requires FindTop(s, c, OUTSIDE) == Some(n)
    ensures PiecesHold(s, c, parse, node) == Combine(c, Holds(s[..n], parse, node), PiecesHold(s[n + 2..], c, parse, node))
  {
    var x, rest := s[..n], TopSplit(s[n + 2..], c);
    TopSplitAt(s, c, n);
    if c == '&' {
      EachCons(x, rest, parse, node);
    } else {
      SomeCons(x, rest, parse, node);
    }
  }

  lemma PiecesOne(s: string, c: char, parse: Parser, node: Node)
    requires FindTop(s, c, OUTSIDE).None?
    ensures PiecesHold(s, c, parse, node) <==> Holds(s, parse, node)
  {
    assert [s][0] == s;
  }

  /** Not at the first character: reading on. */
  lemma FindTopOn(s: string, c: char, m: Mode)
    requires s != [] && !(m == OUTSIDE && DoubleAt(s, 0, c))
    ensures var r := FindTop(s[1..], c, Step(m, s[0]));
            FindTop(s, c, m) == if r.None? then None else Some(r.value + 1)
  {
  }

  lemma HoldsFront(x: char, s: string, parse: Parser, node: Node)
    requires IsSpace(x)
    ensures Holds([x] + s, parse, node) <==> Holds(s, parse, node)
  {
    TrimFront(x, s);
    ReadTrim(s);
    ReadTrim([x] + s);
  }

  lemma HoldsBack(s: string, x: char, parse: Parser, node: Node)
    requires IsSpace(x)
    ensures Holds(s + [x], parse, node) <==> Holds(s, parse, node)
  {
    TrimBack(s, x);
    ReadTrim(s);
    ReadTrim(s + [x]);
  }

  lemma ConsCut(x: char, s: string, n: nat)
    requires n + 2 <= |s|
    ensures ([x] + s)[..n + 1] == [x] + s[..n] && ([x] + s)[n + 3..] == s[n + 2..]
  {
  }

  lemma FindTopFront(x: char, s: string, c: char)
    requires IsSpace(x) && Connective(c)
    ensures FindTop([x] + s, c, OUTSIDE)
         == if FindTop(s, c, OUTSIDE).None? then None else Some(FindTop(s, c, OUTSIDE).value + 1)
  {
    var t := [x] + s;
    assert t[0] == x && t[1..] == s && Step(OUTSIDE, x) == OUTSIDE;
    FindTopOn(t, c, OUTSIDE);
  }

  lemma {:induction false} FindTopBack(s: string, x: char, c: char, m: Mode)
    requires IsSpace(x) && Connective(c)
    ensures FindTop(s + [x], c, m) == FindTop(s, c, m)
    decreases |s|
  {
    if s != [] {
      assert (s + [x])[1..] == s[1..] + [x];
      FindTopBack(s[1..], x, c, Step(m, s[0]));
    }
  }

  lemma JointCut(a: string, c: char, b: string, n: nat)
    requires n + 2 <= |a|
    ensures Joint(a, c, b)[..n] == a[..n] && Joint(a, c, b)[n + 2..] == Joint(a[n + 2..], c, b)
  {
  }

  lemma JointTail(a: string, c: char, b: string)
    requires a != []
    ensures Joint(a, c, b)[0] == a[0] && Joint(a, c, b)[1..] == Joint(a[1..], c, b)
  {
  }

  /** Reading on behind a text that ends outside, in front of a joint. */
  lemma {:induction false} FindTopJoint(a: string, c: char, b: string, m: Mode)
    requires Scan(m, a) == OUTSIDE && (a != [] ==> a[|a| - 1] != c)
    ensures FindTop(Joint(a, c, b), c, m) == if FindTop(a, c, m).None? then Some(|a|) else FindTop(a, c, m)
    decreases |a|
  {
    if a != [] {
      JointTail(a, c, b);
      FindTopJoint(a[1..], c, b, Step(m, a[0]));
    }
  }

  lemma {:induction false} FindTopOutside(s: string, c: char, m: Mode)
    requires FindTop(s, c, m).Some?
    ensures Scan(m, s[..FindTop(s, c, m).value]) == OUTSIDE
    decreases |s|
  {
    var n := FindTop(s, c, m).value;
    if n > 0 {
      FindTopOutside(s[1..], c, Step(m, s[0]));
      assert s[..n][1..] == s[1..][..n - 1];
    }
  }

  /** Behind its first joint a balanced text is balanced. */
  lemma BehindJoint(a: string, c: char, n: nat)
    requires Balanced(a) && Connective(c) && FindTop(a, c, OUTSIDE) == Some(n)
    ensures Balanced(a[n + 2..])
  {
    FindTopOutside(a, c, OUTSIDE);
    JointBalanced(a[..n], c, a[n + 2..]);
    CutIsJoint(a, n, c);
  }

  type Property = string -> bool

  /** `all` combines what `one` says of the pieces of a text. */
  predicate CutsAt(all: Property, one: Property, c: char, s: string) {
    var at := FindTop(s, c, OUTSIDE);
    all(s) == if at.None? then one(s) else Combine(c, one(s[..at.value]), all(s[at.value + 2..]))
  }

  lemma {:induction false} CutsJoint(all: Property, one: Property, a: string, c: char, b: string)
    requires (forall s: string :: CutsAt(all, one, c, s)) && Connective(c)
    requires Balanced(a) && (a != [] ==> a[|a| - 1] != c)
    ensures all(Joint(a, c, b)) == Combine(c, all(a), all(b))
    decreases |a|
  {
    var s, at := Joint(a, c, b), FindTop(a, c, OUTSIDE);
    FindTopJoint(a, c, b, OUTSIDE);
    assert CutsAt(all, one, c, s) && CutsAt(all, one, c, a);
    if at.None? {
      assert s[..|a|] == a && s[|a| + 2..] == b;
    } else {
      JointCut(a, c, b, at.value);
      BehindJoint(a, c, at.value);
      CutsJoint(all, one, a[at.value + 2..], c, b);
    }
  }

  ghost function HoldsOn(parse: Parser, node: Node): Property {
    (s: string) => Holds(s, parse, node)
  }

  ghost function PiecesHoldOn(c: char, parse: Parser, node: Node): Property {
    (s: string) => PiecesHold(s, c, parse, node)
  }

  lemma PiecesSay(s: string, c: char, parse: Parser, node: Node)
    ensures var at := FindTop(s, c, OUTSIDE);
            PiecesHold(s, c, parse, node) ==
            if at.None? then Holds(s, parse, node)
            else Combine(c, Holds(s[..at.value], parse, node), PiecesHold(s[at.value + 2..], c, parse, node))
  {
    var at := FindTop(s, c, OUTSIDE);
    if at.None? {
      PiecesOne(s, c, parse, node);
    } else {
      PiecesAt(s, c, at.value, parse, node);
    }
  }

  /** What a function on texts says is what `PiecesHold` and `Holds` say. */
  ghost predicate SaysPieces(all: Property, one: Property, c: char, parse: Parser, node: Node) {
    && (forall s: string :: all(s) == PiecesHold(s, c, parse, node))
    && (forall s: string :: one(s) == Holds(s, parse, node))
  }

  lemma PiecesCut(all: Property, one: Property, c: char, parse: Parser, node: Node, s: string)
    requires SaysPieces(all, one, c, parse, node)
    ensures CutsAt(all, one, c, s)
  {
    PiecesSay(s, c, parse, node);
  }

  predicate Widens(one: Property, x: char, s: string) {
    one([x] + s) == one(s) && one(s + [x]) == one(s)
  }

  lemma CutsFront(all: Property, one: Property, x: char, s: string, c: char)
    requires (forall t: string :: CutsAt(all, one, c, t)) && (forall t: string :: Widens(one, x, t))
    requires IsSpace(x) && Connective(c)
    ensures all([x] + s) == all(s)
  {
    var t, at := [x] + s, FindTop(s, c, OUTSIDE);
    FindTopFront(x, s, c);
    assert CutsAt(all, one, c, s) && CutsAt(all, one, c, t);
    if at.None? {
      assert Widens(one, x, s);
    } else {
      ConsCut(x, s, at.value);
      assert Widens(one, x, s[..at.value]);
    }
  }

  lemma {:induction false} CutsBack(all: Property, one: Property, s: string, x: char, c: char)
    requires (forall t: string :: CutsAt(all, one, c, t)) && (forall t: string :: Widens(one, x, t))
    requires IsSpace(x) && Connective(c)
    ensures all(s + [x]) == all(s)
    decreases |s|
  {
    var t, at := s + [x], FindTop(s, c, OUTSIDE);
    FindTopBack(s, x, c, OUTSIDE);
    assert CutsAt(all, one, c, s) && CutsAt(all, one, c, t);
    if at.None? {
      assert Widens(one, x, s);
    } else {
      SnocCut(s, x, at.value);
      CutsBack(all, one, s[at.value + 2..], x, c);
    }
  }

  lemma SnocCut(s: string, x: char, n: nat)
    requires n + 2 <= |s|
    ensures (s + [x])[..n] == s[..n] && (s + [x])[n + 2..] == s[n + 2..] + [x]
  {
  }

  lemma PiecesWiden(s: string, x: char, c: char, parse: Parser, node: Node)
    requires IsSpace(x) && Connective(c)
    ensures PiecesHold([x] + s, c, parse, node) <==> PiecesHold(s, c, parse, node)
    ensures PiecesHold(s + [x], c, parse, node) <==> PiecesHold(s, c, parse, node)
  {
    var all, one := PiecesHoldOn(c, parse, node), HoldsOn(parse, node);
    assert SaysPieces(all, one, c, parse, node);
    forall t: string
      ensures CutsAt(all, one, c, t)
    {
      PiecesCut(all, one, c, parse, node, t);
    }
    forall t: string
      ensures Widens(one, x, t)
    {
      HoldsFront(x, t, parse, node);
      HoldsBack(t, x, parse, node);
    }
    CutsFront(all, one, x, s, c);
    CutsBack(all, one, s, x, c);
  }

  /** A balanced text and the text behind a joint hold apart. */
  lemma PiecesJoint(a: string, c: char, b: string, parse: Parser, node: Node)
    requires Balanced(a) && (a != [] ==> a[|a| - 1] != c) && Connective(c)
    ensures PiecesHold(Joint(a, c, b), c, parse, node)
         == Combine(c, PiecesHold(a, c, parse, node), PiecesHold(b, c, parse, node))
  {
    var all, one := PiecesHoldOn(c, parse, node), HoldsOn(parse, node);
    assert SaysPieces(all, one, c, parse, node);
    forall s: string
      ensures CutsAt(all, one, c, s)
    {
      PiecesCut(all, one, c, parse, node, s);
    }
    CutsJoint(all, one, a, c, b);
  }

  /** Behind a balanced text, a spaced joint separates. */
  lemma PiecesSpaced(a: string, c: char, b: string, parse: Parser, node: Node)
    requires Balanced(a) && Connective(c)
    ensures PiecesHold(Joint(a + [' '], c, [' '] + b), c, parse, node)
         == Combine(c, PiecesHold(a, c, parse, node), PiecesHold(b, c, parse, node))
  {
    BackSpace(a, ' ');
    PiecesJoint(a + [' '], c, [' '] + b, parse, node);
    PiecesWiden(a, ' ', c, parse, node);
    PiecesWiden(b, ' ', c, parse, node);
  }

  // ---- taking a term out of a conjunction ----

  lemma {:induction false} JoinAppend(a: seq<string>, b: seq<string>)
    requires a != [] && b != []
    ensures JoinAnd(a + b) == Joint(JoinAnd(a) + [' '], '&', [' '] + JoinAnd(b))
    decreases |a|
  {
    var all := a + b;
    JoinCons(all);
    if |a| == 1 {
      assert all[1..] == b && JoinAnd(a) == a[0];
    } else {
      assert all[1..] == a[1..] + b;
      JoinAppend(a[1..], b);
      JoinCons(a);
      JointAssoc(a[0], JoinAnd(a[1..]), JoinAnd(b));
    }
  }

  lemma JoinCons(parts: seq<string>)
    requires |parts| > 1
    ensures JoinAnd(parts) == Joint(parts[0] + [' '], '&', [' '] + JoinAnd(parts[1..]))
  {
    SpacedJoint(parts[0], JoinAnd(parts[1..]));
  }

  lemma SpacedJoint(a: string, b: string)
    ensures a + " && " + b == Joint(a + [' '], '&', [' '] + b)
  {
    assert " && " == [' '] + ['&', '&'] + [' '];
  }

  lemma JointAssoc(a: string, b: string, c: string)
    ensures Joint(a + [' '], '&', [' '] + Joint(b + [' '], '&', [' '] + c))
         == Joint(Joint(a + [' '], '&', [' '] + b) + [' '], '&', [' '] + c)
  {
  }

  /** The joined parts hold; no parts always do. */
  predicate JoinHolds(parts: seq<string>, parse: Parser, node: Node) {
    parts != [] ==> PiecesHold(JoinAnd(parts), '&', parse, node)
  }

  lemma JoinHoldsAppend(a: seq<string>, b: seq<string>, parse: Parser, node: Node)
    requires Balanced(JoinAnd(a))
    ensures JoinHolds(a + b, parse, node) <==> JoinHolds(a, parse, node) && JoinHolds(b, parse, node)
  {
    if a == [] {
      assert a + b == b;
    } else if b == [] {
      assert a + b == a;
    } else {
      JoinAppend(a, b);
      PiecesSpaced(JoinAnd(a), '&', JoinAnd(b), parse, node);
    }
  }

  lemma JoinUnconditional(a: seq<string>, b: seq<string>)
    requires Balanced(JoinAnd(a))
    ensures Unconditional(JoinAnd(a + b)) <==> Unconditional(JoinAnd(a)) && Unconditional(JoinAnd(b))
    ensures Balanced(JoinAnd(a + b)) <==> Balanced(JoinAnd(b))
  {
    if a == [] {
      assert a + b == b;
    } else if b == [] {
      assert a + b == a;
    } else {
      JoinAppend(a, b);
      BackSpace(JoinAnd(a), ' ');
      JointBalanced(JoinAnd(a) + [' '], '&', [' '] + JoinAnd(b));
      FrontSpace(' ', JoinAnd(b));
    }
  }

  function Without(parts: seq<string>, i: nat): seq<string>
    requires i < |parts|
  {
    parts[..i] + parts[i + 1..]
  }

  /** Not a group or a negated group, so that CEL has nothing to look into. */
  predicate AtomTerm(t: string) {
    !IsGroup(t) && !IsNegation(t)
  }

  lemma ReadAtom(t: string)
    requires Clean(t) && AtomTerm(t)
    ensures Read(t) == Atom(t)
  {
    TrimTrimmed(t);
    CleanNoDouble(t);
    NoTopSplit(t, '|');
    NoTopSplit(t, '&');
  }

  lemma CleanNoDouble(t: string)
    requires Clean(t)
    ensures NoDouble(t, '&') && NoDouble(t, '|')
  {
    forall i: nat
      ensures !DoubleAt(t, i, '&') && !DoubleAt(t, i, '|')
    {
      if i < |t| {
        assert !DoubleAt(t, i, '&') && !DoubleAt(t, i, '|');
      }
    }
  }

  ghost predicate AllClean(parts: seq<string>) {
    forall i :: 0 <= i < |parts| ==> Clean(parts[i])
  }

  lemma WithoutClean(parts: seq<string>, k: nat)
    requires k < |parts| && AllClean(parts)
    ensures AllClean(Without(parts, k)) && (TidyParts(parts) ==> TidyParts(Without(parts, k)))
  {
    var rest := Without(parts, k);
    assert forall i :: 0 <= i < |rest| ==> rest[i] == parts[if i < k then i else i + 1];
  }

  predicate Every(parts: seq<string>, one: Property) {
    forall i :: 0 <= i < |parts| ==> one(parts[i])
  }

  lemma EveryAppend(a: seq<string>, b: seq<string>, one: Property)
    ensures Every(a + b, one) <==> Every(a, one) && Every(b, one)
  {
    var all := a + b;
    assert forall i :: 0 <= i < |a| ==> all[i] == a[i];
    assert forall i :: 0 <= i < |b| ==> all[|a| + i] == b[i];
    assert forall i :: |a| <= i < |all| ==> all[i] == b[i - |a|];
  }

  lemma WithoutEach(parts: seq<string>, k: nat, parse: Parser, node: Node)
    requires k < |parts|
    ensures EachHolds(parts, parse, node) <==>
            Holds(parts[k], parse, node) && EachHolds(Without(parts, k), parse, node)
  {
    var one := HoldsOn(parse, node);
    var a, p, b := parts[..k], [parts[k]], parts[k + 1..];
    AroundMiddle(parts, k);
    EveryAppend(a, p + b, one);
    EveryAppend(p, b, one);
    EveryAppend(a, b, one);
    EveryIs(parts, parse, node);
    EveryIs(Without(parts, k), parse, node);
    assert p[0] == parts[k];
  }

  lemma EveryIs(parts: seq<string>, parse: Parser, node: Node)
    ensures Every(parts, HoldsOn(parse, node)) <==> EachHolds(parts, parse, node)
  {
  }

  /** The other terms of the conjunction, as the text a residual filter is made of. */
  predicate RestHolds(parts: seq<string>, k: nat, parse: Parser, node: Node)
    requires k < |parts|
  {
    var rest := Without(parts, k);
    rest != [] ==> Holds(JoinAnd(rest), parse, node)
  }

  /** Joined tidy terms are their conjunction. */
  lemma JoinedMeans(parts: seq<string>, parse: Parser, node: Node)
    requires parts != [] && AllClean(parts) && TidyParts(parts)
    ensures Holds(JoinAnd(parts), parse, node) <==> EachHolds(parts, parse, node)
  {
    SplitJoined(parts);
    assert [parts][0] == parts;
    TidyMeans(JoinAnd(parts), [parts], parse, node);
  }

  /** Any text without `||` and conditional operator is the conjunction of its outer pieces. */
  lemma JoinedOuter(parts: seq<string>, parse: Parser, node: Node)
    requires parts != [] && AllClean(parts) && Unconditional(JoinAnd(parts))
    ensures Holds(JoinAnd(parts), parse, node) <==> JoinHolds(parts, parse, node)
  {
    JoinClean(parts);
    NoTopSplit(JoinAnd(parts), '|');
    ReadsAll(JoinAnd(parts), parse, node);
  }

  /** The term stands outside all quotes and brackets of an evenly spaced conjunction. */
  predicate Outer(expression: string, parts: seq<string>, k: nat)
    requires k < |parts|
  {
    && Trim(expression) == JoinAnd(parts) && Unconditional(JoinAnd(parts))
    && Balanced(JoinAnd(parts[..k])) && Balanced(parts[k])
  }

  lemma OuterApart(parts: seq<string>, k: nat, parse: Parser, node: Node)
    requires k < |parts| && Balanced(JoinAnd(parts[..k])) && Balanced(parts[k]) && Unconditional(JoinAnd(parts))
    ensures JoinHolds(parts, parse, node) <==>
            PiecesHold(parts[k], '&', parse, node) && JoinHolds(Without(parts, k), parse, node)
    ensures Unconditional(JoinAnd(Without(parts, k)))
  {
    var a, b := parts[..k], parts[k + 1..];
    AroundMiddle(parts, k);
    MiddleApart(a, parts[k], b, parse, node);
    MiddleUnconditional(a, parts[k], b);
  }

  lemma MiddleApart(a: seq<string>, p: string, b: seq<string>, parse: Parser, node: Node)
    requires Balanced(JoinAnd(a)) && Balanced(p)
    ensures JoinHolds(a + ([p] + b), parse, node) <==> PiecesHold(p, '&', parse, node) && JoinHolds(a + b, parse, node)
  {
    JoinHoldsAppend(a, [p] + b, parse, node);
    JoinHoldsAppend([p], b, parse, node);
    JoinHoldsAppend(a, b, parse, node);
  }

  lemma MiddleUnconditional(a: seq<string>, p: string, b: seq<string>)
    requires Balanced(JoinAnd(a)) && Balanced(p) && Unconditional(JoinAnd(a + ([p] + b)))
    ensures Unconditional(JoinAnd(a + b))
  {
    JoinUnconditional(a, [p] + b);
    JoinUnconditional([p], b);
    JoinUnconditional(a, b);
  }

  /**
   * A term can be taken out: CEL reads it as an atom, and no connective is hidden in quotes or
   * brackets, or at least the term itself is outside them.
   */
  ghost predicate Takeable(expression: string, parts: seq<string>, k: nat)
    requires k < |parts|
  {
    AtomTerm(parts[k]) && (TidyParts(parts) || Outer(expression, parts, k))
  }

  /** An expression is the term taken out and the joined other terms. */
  lemma TermApart(expression: string, parts: seq<string>, k: nat, parse: Parser, node: Node)
    requires SplitBoolean(expression) == Some([parts]) && AllClean(parts) && k < |parts| && Takeable(expression, parts, k)
    ensures Holds(expression, parse, node) <==> TermHolds(parts[k], parse, node) && RestHolds(parts, k, parse, node)
  {
    var rest := Without(parts, k);
    WithoutClean(parts, k);
    ReadAtom(parts[k]);
    if TidyParts(parts) {
      assert [parts][0] == parts;
      TidyMeans(expression, [parts], parse, node);
      WithoutEach(parts, k, parse, node);
      if rest != [] {
        JoinedMeans(rest, parse, node);
      }
    } else {
      ReadTrim(expression);
      JoinedOuter(parts, parse, node);
      OuterApart(parts, k, parse, node);
      CleanNoDouble(parts[k]);
      FindTopNone(parts[k], '&', OUTSIDE);
      PiecesOne(parts[k], '&', parse, node);
      if rest != [] {
        JoinedOuter(rest, parse, node);
      }
    }
  }
}
