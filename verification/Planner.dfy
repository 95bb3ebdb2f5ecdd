/** Choosing an index for a conjunction and building the residual filter (crates/pelago-query/src/planner.rs). */
module Planner {
  import opened Common
  import opened Text
  import opened Predicate
  import opened Cel
  import opened CelSplit

  datatype IndexType = NoIndex | Unique | Equality | Range

  type Schema = map<string, IndexType>

  datatype Extracted = Extracted(property: string, op: Operator, value: Literal, rawIndex: nat)

  datatype Bound = Bound(value: Literal, inclusive: bool)

  datatype IndexPredicate = Equals(value: Literal) | Between(lower: Option<Bound>, upper: Option<Bound>)

  datatype QueryPlan = IndexScan(property: string, indexType: IndexType, range: IndexPredicate) | FullScan

  function ComparisonParser(literal: LiteralParser): Parser {
    (s: string) => ParseComparison(s, literal)
  }

  // ---- extraction ----

  /** The terms that parse as comparisons, with their positions. */
  function Recognised(parts: seq<string>, parse: Parser): (r: seq<Extracted>)
    ensures |r| <= |parts|
  {
    if parts == [] then []
    else
      var n := |parts| - 1;
      var front, c := Recognised(parts[..n], parse), parse(parts[n]);
      if c.None? then front else front + [Extracted(c.value.field, c.value.op, c.value.value, n)]
  }

  /** Predicates are taken from a single conjunction only. */
  function ExtractFrom(groups: Option<seq<seq<string>>>, parse: Parser): seq<Extracted> {
    if groups.None? || |groups.value| != 1 then [] else Recognised(groups.value[0], parse)
  }

  function Extract(expression: string, parse: Parser): seq<Extracted> {
    ExtractFrom(SplitBoolean(expression), parse)
  }

  lemma RecognisedStep(parts: seq<string>, i: nat, parse: Parser)
    requires i < |parts|
    ensures var c := parse(parts[i]);
            Recognised(parts[..i + 1], parse) == Recognised(parts[..i], parse)
              + if c.None? then [] else [Extracted(c.value.field, c.value.op, c.value.value, i)]
  {
    assert parts[..i + 1][..i] == parts[..i];
  }

  method RecogniseTerms(parts: seq<string>, literal: LiteralParser) returns (preds: seq<Extracted>)
    ensures preds == Recognised(parts, ComparisonParser(literal))
  {
    preds := [];
    var i := 0;
    ghost var parse := ComparisonParser(literal);
    while i < |parts|
      invariant 0 <= i <= |parts|
      invariant preds == Recognised(parts[..i], parse)
    {
      RecognisedStep(parts, i, parse);
      var c := ParseComparisonText(parts[i], literal);
      assert c == parse(parts[i]);
      if c.Some? {
        preds := preds + [Extracted(c.value.field, c.value.op, c.value.value, i)];
      }
      i := i + 1;
    }
    assert parts[..i] == parts;
  }

  method ExtractPredicates(expression: string, literal: LiteralParser) returns (preds: seq<Extracted>)
    ensures preds == Extract(expression, ComparisonParser(literal))
  {
    var groups := SplitBooleanExpression(expression);
    if groups.None? || |groups.value| != 1 {
      return [];
    }
    preds := RecogniseTerms(groups.value[0], literal);
  }

  // ---- index choice ----

  function BaseSelectivity(t: IndexType): real {
    match t
    case NoIndex => 1.0
    case Unique => 0.01
    case Equality => 0.10
    case Range => 0.50
  }

  function Selectivity(plan: QueryPlan): real {
    match plan
    case FullScan => 1.0
    case IndexScan(_, t, Equals(_)) => BaseSelectivity(t)
    case IndexScan(_, t, Between(_, _)) => BaseSelectivity(t) * 2.0
  }

  /** The index scan a predicate allows, if any. */
  function PlanFor(schema: Schema, p: Extracted): Option<QueryPlan> {
    if p.property !in schema || schema[p.property] == NoIndex then None
    else if p.op == Eq then Some(IndexScan(p.property, schema[p.property], Equals(p.value)))
    else if p.op == Ne || schema[p.property] != Range then None
    else
      var bound := Some(Bound(p.value, p.op == Ge || p.op == Le));
      Some(IndexScan(p.property, Range, if p.op == Gt || p.op == Ge then Between(bound, None) else Between(None, bound)))
  }

  /** The first of minimal selectivity among the usable predicates. */
  ghost predicate FirstBest(schema: Schema, preds: seq<Extracted>, used: Option<nat>) {
    if used.None? then forall j :: 0 <= j < |preds| ==> PlanFor(schema, preds[j]).None?
    else
      && used.value < |preds| && PlanFor(schema, preds[used.value]).Some?
      && forall j :: 0 <= j < |preds| && PlanFor(schema, preds[j]).Some? ==>
           NoWorse(PlanFor(schema, preds[used.value]).value, PlanFor(schema, preds[j]).value, j < used.value)
  }

  predicate NoWorse(best: QueryPlan, other: QueryPlan, earlier: bool) {
    Selectivity(best) <= Selectivity(other) && (earlier ==> Selectivity(best) < Selectivity(other))
  }

  method SelectBestIndex(schema: Schema, preds: seq<Extracted>) returns (plan: QueryPlan, used: Option<nat>)
    ensures FirstBest(schema, preds, used)
    ensures plan == Primary(schema, preds, used)
  {
    plan, used := FullScan, None;
    var i := 0;
    while i < |preds|
      invariant 0 <= i <= |preds|
      invariant FirstBest(schema, preds[..i], used) && plan == Primary(schema, preds[..i], used)
    {
      var candidate := PlanFor(schema, preds[i]);
      assert preds[..i + 1] == preds[..i] + [preds[i]];
      if candidate.Some? && (used.None? || Selectivity(candidate.value) < Selectivity(plan)) {
        plan, used := candidate.value, Some(i);
      }
      i := i + 1;
    }
    assert preds[..i] == preds;
  }

  /** A comparison an index can serve: an equality on any indexed property, a range on a range index. */
  predicate Usable(schema: Schema, p: Extracted) {
    p.property in schema &&
    match schema[p.property]
    case NoIndex => false
    case Unique => p.op == Eq
    case Equality => p.op == Eq
    case Range => p.op != Ne
  }

  /** The order of preference: equality on a unique, an equality and a range index, then ranges. */
  function Preference(schema: Schema, p: Extracted): nat
    requires p.property in schema
  {
    if p.op != Eq then 3
    else
      match schema[p.property]
      case Unique => 0
      case Equality => 1
      case Range => 2
      case NoIndex => 3
  }

  lemma UsableIff(schema: Schema, p: Extracted)
    ensures PlanFor(schema, p).Some? <==> Usable(schema, p)
  {
  }

  lemma PreferenceIff(schema: Schema, p: Extracted, q: Extracted)
    requires Usable(schema, p) && Usable(schema, q)
    ensures PlanFor(schema, p).Some? && PlanFor(schema, q).Some?
    ensures Selectivity(PlanFor(schema, p).value) <= Selectivity(PlanFor(schema, q).value) <==>
            Preference(schema, p) <= Preference(schema, q)
  {
  }

  /** The chosen predicate is usable, the most preferred and the first such; none is chosen only if none is usable. */
  ghost predicate Preferred(schema: Schema, preds: seq<Extracted>, used: Option<nat>) {
    if used.None? then forall j :: 0 <= j < |preds| ==> !Usable(schema, preds[j])
    else
      && used.value < |preds| && Usable(schema, preds[used.value])
      && forall j :: 0 <= j < |preds| && Usable(schema, preds[j]) ==>
           if j < used.value then Preference(schema, preds[used.value]) < Preference(schema, preds[j])
           else Preference(schema, preds[used.value]) <= Preference(schema, preds[j])
  }

  /** Minimal selectivity is that order of preference. */
  lemma ChoiceIff(schema: Schema, preds: seq<Extracted>, used: Option<nat>)
    ensures FirstBest(schema, preds, used) <==> Preferred(schema, preds, used)
  {
    forall j | 0 <= j < |preds|
      ensures PlanFor(schema, preds[j]).Some? <==> Usable(schema, preds[j])
    {
      UsableIff(schema, preds[j]);
    }
    if used.Some? && used.value < |preds| && Usable(schema, preds[used.value]) {
      forall j | 0 <= j < |preds| && Usable(schema, preds[j])
        ensures NoWorse(PlanFor(schema, preds[used.value]).value, PlanFor(schema, preds[j]).value, j < used.value) <==>
                if j < used.value then Preference(schema, preds[used.value]) < Preference(schema, preds[j])
                else Preference(schema, preds[used.value]) <= Preference(schema, preds[j])
      {
        PreferenceIff(schema, preds[used.value], preds[j]);
        PreferenceIff(schema, preds[j], preds[used.value]);
      }
    }
  }

  /** The primary access path for the chosen predicate. */
  function Primary(schema: Schema, preds: seq<Extracted>, used: Option<nat>): QueryPlan {
    if used.Some? && used.value < |preds| && PlanFor(schema, preds[used.value]).Some?
    then PlanFor(schema, preds[used.value]).value else FullScan
  }

  lemma FirstBestUnique(schema: Schema, preds: seq<Extracted>, a: Option<nat>, b: Option<nat>)
    requires FirstBest(schema, preds, a) && FirstBest(schema, preds, b)
    ensures a == b
  {
    if a.Some? && b.Some? {
      assert PlanFor(schema, preds[a.value]).Some? && PlanFor(schema, preds[b.value]).Some?;
      assert NoWorse(PlanFor(schema, preds[a.value]).value, PlanFor(schema, preds[b.value]).value, b.value < a.value);
      assert NoWorse(PlanFor(schema, preds[b.value]).value, PlanFor(schema, preds[a.value]).value, a.value < b.value);
    }
  }

  // ---- the residual ----

  const NonEmpty: string -> bool := (s: string) => |s| > 0

  function Conjuncts(expression: string): seq<string> {
    Filter(TrimAll(Split(expression, '&')), NonEmpty)
  }

  function BuildResidual(preds: seq<Extracted>, used: Option<nat>, expression: string): Option<string> {
    if preds == [] then None
    else if used.None? then Some(expression)
    else if |preds| == 1 then None
    else if used.value >= |preds| then Some(expression)
    else
      var parts, raw := Conjuncts(expression), preds[used.value].rawIndex;
      if raw >= |parts| then Some(expression)
      else if |parts| == 1 then None
      else Some(JoinAnd(Without(parts, raw)))
  }

  method PlanQuery(expression: string, schema: Schema, literal: LiteralParser)
    returns (plan: QueryPlan, residual: Option<string>, used: Option<nat>)
    ensures var preds := Extract(expression, ComparisonParser(literal));
            && FirstBest(schema, preds, used) && plan == Primary(schema, preds, used)
            && residual == BuildResidual(preds, used, expression)
  {
    var preds := ExtractPredicates(expression, literal);
    plan, used := SelectBestIndex(schema, preds);
    residual := BuildResidual(preds, used, expression);
  }

  // ---- meaning ----

  /** What the plan's index predicate says of a node; the rows a scan reads are another matter. */
  predicate Accepts(plan: QueryPlan, node: Node) {
    match plan
    case FullScan => true
    case IndexScan(property, _, Equals(v)) => node.compares(property, Eq, v)
    case IndexScan(property, _, Between(lower, upper)) =>
      && (lower.Some? ==> node.compares(property, if lower.value.inclusive then Ge else Gt, lower.value.value))
      && (upper.Some? ==> node.compares(property, if upper.value.inclusive then Le else Lt, upper.value.value))
  }

  /** Index predicate and residual, which is evaluated as CEL. */
  predicate PlanHolds(plan: QueryPlan, residual: Option<string>, parse: Parser, node: Node) {
    Accepts(plan, node) && (residual.Some? ==> Holds(residual.value, parse, node))
  }

  lemma {:induction false} RecognisedTerm(parts: seq<string>, parse: Parser, i: nat)
    requires i < |Recognised(parts, parse)|
    ensures var p := Recognised(parts, parse)[i];
            p.rawIndex < |parts| && parse(parts[p.rawIndex]) == Some(Comparison(p.property, p.op, p.value))
    decreases |parts|
  {
    var n := |parts| - 1;
    if i < |Recognised(parts[..n], parse)| {
      RecognisedTerm(parts[..n], parse, i);
    }
  }

  lemma {:induction false} RecognisedEach(parts: seq<string>, parse: Parser, k: nat) returns (i: nat)
    requires k < |parts| && parse(parts[k]).Some?
    ensures i < |Recognised(parts, parse)| && Recognised(parts, parse)[i].rawIndex == k
    decreases |parts|
  {
    var n := |parts| - 1;
    if k == n {
      i := |Recognised(parts[..n], parse)|;
    } else {
      i := RecognisedEach(parts[..n], parse, k);
    }
  }

  lemma {:induction false} RecognisedOrder(parts: seq<string>, parse: Parser)
    ensures forall i, j :: 0 <= i < j < |Recognised(parts, parse)| ==>
              Recognised(parts, parse)[i].rawIndex < Recognised(parts, parse)[j].rawIndex
    decreases |parts|
  {
    if parts != [] {
      var n := |parts| - 1;
      var front := Recognised(parts[..n], parse);
      RecognisedOrder(parts[..n], parse);
      forall i | 0 <= i < |front|
        ensures front[i].rawIndex < n
      {
        RecognisedTerm(parts[..n], parse, i);
      }
    }
  }

  /** Exactly the terms that parse are recognised, in order. */
  lemma RecognisedIff(parts: seq<string>, parse: Parser, k: nat)
    requires k < |parts|
    ensures parse(parts[k]).Some? <==>
            exists i :: 0 <= i < |Recognised(parts, parse)| && Recognised(parts, parse)[i].rawIndex == k
    ensures forall i, j :: 0 <= i < j < |Recognised(parts, parse)| ==>
              Recognised(parts, parse)[i].rawIndex < Recognised(parts, parse)[j].rawIndex
  {
    RecognisedOrder(parts, parse);
    if parse(parts[k]).Some? {
      var i := RecognisedEach(parts, parse, k);
    }
    if i :| 0 <= i < |Recognised(parts, parse)| && Recognised(parts, parse)[i].rawIndex == k {
      RecognisedTerm(parts, parse, i);
    }
  }

  /** With fewer predicates than terms, some term was not recognised. */
  lemma {:induction false} Unrecognised(parts: seq<string>, parse: Parser) returns (j: nat)
    requires |Recognised(parts, parse)| < |parts|
    ensures j < |parts| && parse(parts[j]).None?
    decreases |parts|
  {
    var n := |parts| - 1;
    if parse(parts[n]).None? {
      j := n;
    } else {
      j := Unrecognised(parts[..n], parse);
    }
  }

  /** The index predicate chosen for a term says of a node what the term says. */
  lemma AcceptsTerm(schema: Schema, parts: seq<string>, parse: Parser, i: nat, node: Node)
    requires i < |Recognised(parts, parse)| && PlanFor(schema, Recognised(parts, parse)[i]).Some?
    ensures var p := Recognised(parts, parse)[i];
            p.rawIndex < |parts| && Accepts(PlanFor(schema, p).value, node) == TermHolds(parts[p.rawIndex], parse, node)
  {
    RecognisedTerm(parts, parse, i);
  }

  lemma SingleGroup(expression: string, parts: seq<string>)
    requires SplitBoolean(expression) == Some([parts])
    ensures parts != [] && AllClean(parts)
    ensures Conjuncts(expression) == parts
  {
    var e := Trim(expression);
    OneOrPart(e, parts);
    TrimTrimmed(e);
    SplitTrim(expression, '&');
    forall i | 0 <= i < |parts|
      ensures Clean(parts[i])
    {
      GroupClean(e, i);
    }
    FilterAll(parts, NonEmpty);
  }

  lemma OneOrPart(e: string, parts: seq<string>)
    requires Groups(Split(e, '|')) == Some([parts])
    ensures NoDouble(e, '|') && Group(e) == Some(parts)
  {
    var orParts := Split(e, '|');
    GroupsAt(orParts);
    assert |orParts| == 1;
    var at := FindDouble(e, '|');
    assert at.None?;
    assert orParts[0] == e && [parts][0] == parts;
  }

  // ---- the property ----

  /** Plan and expression agree on a node. */
  predicate Agree(expression: string, schema: Schema, preds: seq<Extracted>, used: Option<nat>, parse: Parser,
                  node: Node) {
    PlanHolds(Primary(schema, preds, used), BuildResidual(preds, used, expression), parse, node)
    <==> Holds(expression, parse, node)
  }

  ghost predicate Faithful(expression: string, schema: Schema, preds: seq<Extracted>, used: Option<nat>,
                           parse: Parser) {
    forall node: Node :: Agree(expression, schema, preds, used, parse, node)
  }

  /** When the plan keeps every term of the filter. */
  predicate Kept(groups: seq<seq<string>>, preds: seq<Extracted>, used: Option<nat>) {
    && |groups| == 1
    && (|preds| >= 2 || (|preds| == 1 && (|groups[0]| == 1 || used.None?)))
  }

  /** One recognised term among several: the others are not checked. */
  predicate RestDropped(parts: seq<string>, preds: seq<Extracted>) {
    |preds| == 1 && |parts| >= 2
  }

  /** The text of the residual: the other terms joined, unless there are none or they are dropped. */
  lemma ResidualIs(expression: string, parts: seq<string>, preds: seq<Extracted>, i: nat, parse: Parser)
    requires SplitBoolean(expression) == Some([parts]) && preds == Recognised(parts, parse) && i < |preds|
    ensures preds[i].rawIndex < |parts|
    ensures BuildResidual(preds, Some(i), expression)
         == if RestDropped(parts, preds) || |parts| == 1 then None else Some(JoinAnd(Without(parts, preds[i].rawIndex)))
  {
    RecognisedTerm(parts, parse, i);
    SingleGroup(expression, parts);
  }

  /** Of tidy terms, the residual means the conjunction of the others. */
  lemma ResidualMeans(expression: string, parts: seq<string>, preds: seq<Extracted>, i: nat, parse: Parser, node: Node)
    requires SplitBoolean(expression) == Some([parts]) && preds == Recognised(parts, parse) && i < |preds|
    requires |preds| >= 2 && TidyParts(parts)
    ensures preds[i].rawIndex < |parts|
    ensures var residual := BuildResidual(preds, Some(i), expression);
            residual.Some? && (Holds(residual.value, parse, node) <==>
                               EachHolds(Without(parts, preds[i].rawIndex), parse, node))
  {
    ResidualIs(expression, parts, preds, i, parse);
    SingleGroup(expression, parts);
    WithoutClean(parts, preds[i].rawIndex);
    JoinedMeans(Without(parts, preds[i].rawIndex), parse, node);
  }

  /** What a plan over an index says: its term, and the others unless they are dropped. */
  lemma IndexedSays(expression: string, parts: seq<string>, schema: Schema, preds: seq<Extracted>, i: nat,
                    parse: Parser, node: Node)
    requires SplitBoolean(expression) == Some([parts]) && preds == Recognised(parts, parse) && i < |preds|
    requires PlanFor(schema, preds[i]).Some?
    ensures preds[i].rawIndex < |parts|
    ensures PlanHolds(PlanFor(schema, preds[i]).value, BuildResidual(preds, Some(i), expression), parse, node) <==>
            && TermHolds(parts[preds[i].rawIndex], parse, node)
            && (!RestDropped(parts, preds) ==> RestHolds(parts, preds[i].rawIndex, parse, node))
  {
    ResidualIs(expression, parts, preds, i, parse);
    AcceptsTerm(schema, parts, parse, i, node);
  }

  /** If the used term can be taken out of the expression, a plan that drops nothing says what the expression says. */
  lemma TakenOut(expression: string, parts: seq<string>, schema: Schema, preds: seq<Extracted>, i: nat,
                 parse: Parser, node: Node)
    requires SplitBoolean(expression) == Some([parts]) && preds == Recognised(parts, parse) && i < |preds|
    requires PlanFor(schema, preds[i]).Some?
    requires preds[i].rawIndex < |parts| && Takeable(expression, parts, preds[i].rawIndex)
    ensures Agree(expression, schema, preds, Some(i), parse, node) <==>
            (RestDropped(parts, preds) && TermHolds(parts[preds[i].rawIndex], parse, node) ==>
               RestHolds(parts, preds[i].rawIndex, parse, node))
  {
    SingleGroup(expression, parts);
    IndexedSays(expression, parts, schema, preds, i, parse, node);
    TermApart(expression, parts, preds[i].rawIndex, parse, node);
  }

  /** Whatever the expression: with a recognised term and no index, the whole of it is evaluated. */
  lemma WholeKept(expression: string, schema: Schema, preds: seq<Extracted>, parse: Parser)
    requires preds != []
    ensures Faithful(expression, schema, preds, None, parse)
  {
  }

  /** The expression holds of every node. */
  ghost predicate AlwaysHolds(expression: string, parse: Parser) {
    forall node: Node :: Holds(expression, parse, node)
  }

  /** Wherever the used term holds, the others do. */
  ghost predicate RestFollows(parts: seq<string>, k: nat, parse: Parser)
    requires k < |parts|
  {
    forall node: Node :: TermHolds(parts[k], parse, node) ==> RestHolds(parts, k, parse, node)
  }

  /** When a plan is faithful whose used term, if it has one, can be taken out. */
  ghost predicate Sufficient(expression: string, groups: seq<seq<string>>, preds: seq<Extracted>, used: Option<nat>,
                             parse: Parser) {
    if preds == [] then AlwaysHolds(expression, parse)
    else used.Some? && |groups| == 1 && used.value < |preds| && preds[used.value].rawIndex < |groups[0]|
         && RestDropped(groups[0], preds) ==>
           RestFollows(groups[0], preds[used.value].rawIndex, parse)
  }

  lemma IndexedFaithful(expression: string, parts: seq<string>, schema: Schema, preds: seq<Extracted>, i: nat,
                        parse: Parser)
    requires SplitBoolean(expression) == Some([parts]) && preds == Recognised(parts, parse) && i < |preds|
    requires PlanFor(schema, preds[i]).Some?
    requires preds[i].rawIndex < |parts| && Takeable(expression, parts, preds[i].rawIndex)
    ensures Faithful(expression, schema, preds, Some(i), parse) <==>
            (RestDropped(parts, preds) ==> RestFollows(parts, preds[i].rawIndex, parse))
  {
    forall node: Node
      ensures Agree(expression, schema, preds, Some(i), parse, node) <==>
              (RestDropped(parts, preds) && TermHolds(parts[preds[i].rawIndex], parse, node) ==>
                 RestHolds(parts, preds[i].rawIndex, parse, node))
    {
      TakenOut(expression, parts, schema, preds, i, parse, node);
    }
  }

  /**
   * Grouped and quoted filters included: unless an index is used for a term that cannot be taken
   * out, index predicate and residual mean the expression on every node exactly when nothing that
   * matters is dropped.
   */
  lemma TakeableFaithfulIff(expression: string, groups: seq<seq<string>>, schema: Schema, preds: seq<Extracted>,
                            used: Option<nat>, parse: Parser)
    requires SplitBoolean(expression) == Some(groups) && preds == ExtractFrom(Some(groups), parse)
    requires FirstBest(schema, preds, used)
    requires used.Some? ==>
               preds[used.value].rawIndex < |groups[0]| && Takeable(expression, groups[0], preds[used.value].rawIndex)
    ensures Faithful(expression, schema, preds, used, parse) <==> Sufficient(expression, groups, preds, used, parse)
  {
    if preds == [] {
      assert forall node: Node :: Agree(expression, schema, preds, used, parse, node) <==> Holds(expression, parse, node);
    } else if used.None? {
      WholeKept(expression, schema, preds, parse);
    } else {
      assert groups == [groups[0]];
      IndexedFaithful(expression, groups[0], schema, preds, used.value, parse);
    }
  }

  // ---- flat filters ----

  /** Every term is tidy and an atom: no parentheses or negation around a connective or a term, none in quotes. */
  ghost predicate Flat(groups: seq<seq<string>>) {
    Tidy(groups) && forall g, i :: 0 <= g < |groups| && 0 <= i < |groups[g]| ==> AtomTerm(groups[g][i])
  }

  const NoNode: Node := Node((f, o, v) => false, s => false)

  const ComparingNode: Node := Node((f, o, v) => true, s => false)

  lemma {:induction false} GroupsNonEmpty(orParts: seq<string>, g: nat)
    requires Groups(orParts).Some? && g < |Groups(orParts).value|
    ensures Groups(orParts).value[g] != []
    decreases |orParts|
  {
    var n := |orParts| - 1;
    if g < |Groups(orParts[..n]).value| {
      GroupsNonEmpty(orParts[..n], g);
    }
  }

  lemma TermsClean(expression: string, groups: seq<seq<string>>, g: nat, i: nat)
    requires SplitBoolean(expression) == Some(groups) && g < |groups| && i < |groups[g]|
    ensures Clean(groups[g][i])
  {
    var orParts := Split(Trim(expression), '|');
    SplitPieces(Trim(expression), '|');
    GroupsAt(orParts);
    GroupClean(orParts[g], i);
  }

  lemma FlatTerm(expression: string, groups: seq<seq<string>>, g: nat, i: nat, parse: Parser, node: Node)
    requires SplitBoolean(expression) == Some(groups) && Flat(groups) && g < |groups| && i < |groups[g]|
    ensures Holds(groups[g][i], parse, node) <==> TermHolds(groups[g][i], parse, node)
  {
    TermsClean(expression, groups, g, i);
    ReadAtom(groups[g][i]);
  }

  /** A flat filter never holds of a node on which every term fails. */
  lemma NothingHolds(expression: string, groups: seq<seq<string>>, parse: Parser)
    requires SplitBoolean(expression) == Some(groups) && Flat(groups)
    ensures !Holds(expression, parse, NoNode)
  {
    TidyMeans(expression, groups, parse, NoNode);
    forall g | 0 <= g < |groups|
      ensures !EachHolds(groups[g], parse, NoNode)
    {
      GroupsNonEmpty(Split(Trim(expression), '|'), g);
      FlatTerm(expression, groups, g, 0, parse, NoNode);
    }
  }

  /** Without predicates the plan is an unfiltered full scan. */
  lemma NoPredicates(expression: string, groups: seq<seq<string>>, schema: Schema, used: Option<nat>, parse: Parser)
    requires SplitBoolean(expression) == Some(groups) && Flat(groups) && FirstBest(schema, [], used)
    ensures !Agree(expression, schema, [], used, parse, NoNode)
  {
    NothingHolds(expression, groups, parse);
  }

  /** Where only one of several terms is recognised and it is indexed, the others are not checked. */
  lemma DroppedTerms(expression: string, parts: seq<string>, schema: Schema, preds: seq<Extracted>, parse: Parser)
    requires SplitBoolean(expression) == Some([parts]) && preds == Recognised(parts, parse) && Flat([parts])
    requires RestDropped(parts, preds) && PlanFor(schema, preds[0]).Some?
    ensures !Agree(expression, schema, preds, Some(0), parse, ComparingNode)
  {
    UnrecognisedFails(expression, parts, parse);
    IndexedSays(expression, parts, schema, preds, 0, parse, ComparingNode);
    RecognisedTerm(parts, parse, 0);
  }

  lemma UnrecognisedFails(expression: string, parts: seq<string>, parse: Parser)
    requires SplitBoolean(expression) == Some([parts]) && Flat([parts]) && |Recognised(parts, parse)| < |parts|
    ensures !Holds(expression, parse, ComparingNode)
  {
    var j := Unrecognised(parts, parse);
    assert [parts][0] == parts;
    FlatTerm(expression, [parts], 0, j, parse, ComparingNode);
    TidyMeans(expression, [parts], parse, ComparingNode);
  }

  lemma FlatTakeable(expression: string, parts: seq<string>, k: nat)
    requires Flat([parts]) && k < |parts|
    ensures Takeable(expression, parts, k)
  {
    assert [parts][0] == parts;
  }

  lemma FlatConjunction(expression: string, parts: seq<string>, schema: Schema, preds: seq<Extracted>, i: nat,
                        parse: Parser)
    requires SplitBoolean(expression) == Some([parts]) && preds == Recognised(parts, parse) && Flat([parts])
    requires i < |preds| && PlanFor(schema, preds[i]).Some?
    ensures Faithful(expression, schema, preds, Some(i), parse) <==> !RestDropped(parts, preds)
  {
    RecognisedTerm(parts, parse, i);
    FlatTakeable(expression, parts, preds[i].rawIndex);
    IndexedFaithful(expression, parts, schema, preds, i, parse);
    if RestDropped(parts, preds) {
      DroppedTerms(expression, parts, schema, preds, parse);
    }
  }

  /**
   * For flat filters, index predicate and residual mean the same as the expression on every node
   * exactly when the expression is one conjunction with two recognised terms, or with one that
   * is either its only term or not indexed.
   */
  lemma PlanFaithfulIff(expression: string, groups: seq<seq<string>>, schema: Schema, preds: seq<Extracted>,
                        used: Option<nat>, parse: Parser)
    requires SplitBoolean(expression) == Some(groups) && preds == ExtractFrom(Some(groups), parse)
    requires FirstBest(schema, preds, used) && Flat(groups)
    ensures Faithful(expression, schema, preds, used, parse) <==> Kept(groups, preds, used)
  {
    if preds == [] {
      NoPredicates(expression, groups, schema, used, parse);
    } else {
      assert groups == [groups[0]];
      if used.None? {
        WholeKept(expression, schema, preds, parse);
      } else {
        FlatConjunction(expression, groups[0], schema, preds, used.value, parse);
      }
    }
  }
}
