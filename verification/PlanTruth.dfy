/** Filters of any shape: a plan is faithful exactly when it has the filter's truth table. */
module PlanTruth {
  import opened Common
  import opened Text
  import opened Predicate
  import opened Cel
  import opened CelSplit
  import opened Planner

  // ---- truth tables ----

  /** What a node decides: a comparison, or any other text without connectives. */
  datatype Key = OnComparison(c: Comparison) | OnText(text: string)

  function KeyOf(t: string, parse: Parser): Key {
    if parse(t).Some? then OnComparison(parse(t).value) else OnText(t)
  }

  predicate KeyTrue(k: Key, node: Node) {
    match k
    case OnComparison(c) => node.compares(c.field, c.op, c.value)
    case OnText(t) => node.other(t)
  }

  function KeysOf(f: Formula, parse: Parser): set<Key> {
    match f
    case Atom(t) => {KeyOf(t, parse)}
    case Not(g) => KeysOf(g, parse)
    case All(fs) => set i, k | 0 <= i < |fs| && k in KeysOf(fs[i], parse) :: k
    case Any(fs) => set i, k | 0 <= i < |fs| && k in KeysOf(fs[i], parse) :: k
  }

  /** One line of a truth table: the node on which exactly these keys are true. */
  function NodeOf(line: set<Key>): Node {
    Node((f, o, v) => OnComparison(Comparison(f, o, v)) in line, s => OnText(s) in line)
  }

  function PlanKeys(plan: QueryPlan): set<Key> {
    match plan
    case FullScan => {}
    case IndexScan(property, _, Equals(v)) => {OnComparison(Comparison(property, Eq, v))}
    case IndexScan(property, _, Between(lower, upper)) =>
      (if lower.None? then {}
       else {OnComparison(Comparison(property, if lower.value.inclusive then Ge else Gt, lower.value.value))})
      + (if upper.None? then {}
         else {OnComparison(Comparison(property, if upper.value.inclusive then Le else Lt, upper.value.value))})
  }

  function AllKeys(expression: string, plan: QueryPlan, residual: Option<string>, parse: Parser): set<Key> {
    KeysOf(Read(expression), parse) + PlanKeys(plan)
    + (if residual.None? then {} else KeysOf(Read(residual.value), parse))
  }

  ghost predicate SameOn(keys: set<Key>, a: Node, b: Node) {
    forall k :: k in keys ==> KeyTrue(k, a) == KeyTrue(k, b)
  }

  lemma {:induction false} MeansByKeys(f: Formula, parse: Parser, a: Node, b: Node)
    requires SameOn(KeysOf(f, parse), a, b)
    ensures Means(f, parse, a) <==> Means(f, parse, b)
    decreases f
  {
    match f
    case Atom(t) => assert KeyTrue(KeyOf(t, parse), a) == KeyTrue(KeyOf(t, parse), b);
    case Not(g) => MeansByKeys(g, parse, a, b);
    case All(fs) => EachByKeys(f, fs, parse, a, b);
    case Any(fs) => EachByKeys(f, fs, parse, a, b);
  }

  lemma {:induction false} EachByKeys(f: Formula, fs: seq<Formula>, parse: Parser, a: Node, b: Node)
    requires (f == All(fs) || f == Any(fs)) && SameOn(KeysOf(f, parse), a, b)
    ensures forall i :: 0 <= i < |fs| ==> (Means(fs[i], parse, a) <==> Means(fs[i], parse, b))
    decreases f, 0
  {
    forall i | 0 <= i < |fs|
      ensures Means(fs[i], parse, a) <==> Means(fs[i], parse, b)
    {
      assert forall k :: k in KeysOf(fs[i], parse) ==> k in KeysOf(f, parse);
      MeansByKeys(fs[i], parse, a, b);
    }
  }

  lemma AcceptsByKeys(plan: QueryPlan, a: Node, b: Node)
    requires SameOn(PlanKeys(plan), a, b)
    ensures Accepts(plan, a) <==> Accepts(plan, b)
  {
    if plan.IndexScan? {
      match plan.range
      case Equals(v) =>
        var c := Comparison(plan.property, Eq, v);
        assert OnComparison(c) in PlanKeys(plan) && KeyTrue(OnComparison(c), a) == KeyTrue(OnComparison(c), b);
      case Between(lower, upper) =>
        if lower.Some? {
          var c := Comparison(plan.property, if lower.value.inclusive then Ge else Gt, lower.value.value);
          assert OnComparison(c) in PlanKeys(plan) && KeyTrue(OnComparison(c), a) == KeyTrue(OnComparison(c), b);
        }
        if upper.Some? {
          var c := Comparison(plan.property, if upper.value.inclusive then Le else Lt, upper.value.value);
          assert OnComparison(c) in PlanKeys(plan) && KeyTrue(OnComparison(c), a) == KeyTrue(OnComparison(c), b);
        }
    }
  }

  lemma AgreeByKeys(expression: string, schema: Schema, preds: seq<Extracted>, used: Option<nat>, parse: Parser,
                    a: Node, b: Node)
    requires SameOn(AllKeys(expression, Primary(schema, preds, used), BuildResidual(preds, used, expression), parse), a, b)
    ensures Agree(expression, schema, preds, used, parse, a) <==> Agree(expression, schema, preds, used, parse, b)
  {
    var residual := BuildResidual(preds, used, expression);
    MeansByKeys(Read(expression), parse, a, b);
    AcceptsByKeys(Primary(schema, preds, used), a, b);
    if residual.Some? {
      MeansByKeys(Read(residual.value), parse, a, b);
    }
  }

  /** Plan and expression agree on every line of the table. */
  ghost predicate SameTable(expression: string, schema: Schema, preds: seq<Extracted>, used: Option<nat>, parse: Parser) {
    var keys := AllKeys(expression, Primary(schema, preds, used), BuildResidual(preds, used, expression), parse);
    forall line: set<Key> :: line <= keys ==> Agree(expression, schema, preds, used, parse, NodeOf(line))
  }

  /** For every expression: a plan is faithful exactly when its finite truth table is the expression's. */
  lemma FaithfulIffSameTable(expression: string, schema: Schema, preds: seq<Extracted>, used: Option<nat>,
                             parse: Parser)
    ensures Faithful(expression, schema, preds, used, parse) <==> SameTable(expression, schema, preds, used, parse)
  {
    var keys := AllKeys(expression, Primary(schema, preds, used), BuildResidual(preds, used, expression), parse);
    if SameTable(expression, schema, preds, used, parse) {
      forall node: Node
        ensures Agree(expression, schema, preds, used, parse, node)
      {
        var line := LineOf(keys, node);
        SameAsLine(keys, node);
        AgreeByKeys(expression, schema, preds, used, parse, NodeOf(line), node);
        assert Agree(expression, schema, preds, used, parse, NodeOf(line));
      }
    }
  }

  /** The line of the table a node is on. */
  function LineOf(keys: set<Key>, node: Node): (line: set<Key>)
    ensures line <= keys
  {
    set k | k in keys && KeyTrue(k, node)
  }

  lemma SameAsLine(keys: set<Key>, node: Node)
    ensures SameOn(keys, NodeOf(LineOf(keys, node)), node)
  {
  }
}
