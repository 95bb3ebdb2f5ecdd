/**
 * Planner and index scan together: which stored nodes a plan returns, and exactly when those
 * are the nodes the filter expression holds of (crates/pelago-query/src/planner.rs and
 * crates/pelago-query/src/executor.rs).
 */
module PlanScan {
  import opened Common
  import opened ByteOrder
  import opened Predicate
  import opened Cel
  import opened CelSplit
  import opened Planner
  import Scans = IndexScan
  import opened ScanFit

  /** How `encode_predicate_value` reads a literal. */
  type ToIndex = Literal -> Scans.IndexValue

  /** A node: its entry in the index at hand, if it has the property, and what filters see of it. */
  datatype Stored = Stored(entry: Option<Scans.IndexEntry>, node: Node)

  function RangeStart(prefix: Bytes, lower: Option<Bound>, toIndex: ToIndex): Bytes {
    if lower.None? then prefix
    else prefix + (Scans.EncodeValue(toIndex(lower.value.value)) + (if lower.value.inclusive then [] else [0xFF]))
  }

  function RangeEnd(prefix: Bytes, upper: Option<Bound>, toIndex: ToIndex): Bytes {
    if upper.None? then prefix + [0xFF]
    else prefix + (Scans.EncodeValue(toIndex(upper.value.value)) + (if upper.value.inclusive then [0xFF] else []))
  }

  /** The key range a plan scans. */
  function ScanRange(prefix: Bytes, range: IndexPredicate, toIndex: ToIndex): (Bytes, Bytes) {
    match range
    case Equals(v) =>
      var start := prefix + Scans.EncodeValue(toIndex(v));
      (start, start + [0xFF])
    case Between(lower, upper) => (RangeStart(prefix, lower, toIndex), RangeEnd(prefix, upper, toIndex))
  }

  predicate EntryRead(prefix: Bytes, plan: QueryPlan, toIndex: ToIndex, entry: Option<Scans.IndexEntry>)
    requires plan.IndexScan?
  {
    var (lo, hi) := ScanRange(prefix, plan.range, toIndex);
    entry.Some? && InRange(prefix + KeyTail(entry.value, plan.indexType == Unique), lo, hi)
  }

  /** The node is read by the plan's access path and passes its residual filter. */
  ghost predicate Returned(prefix: Bytes, plan: QueryPlan, residual: Option<string>, toIndex: ToIndex, parse: Parser,
                           n: Stored) {
    && (plan.IndexScan? ==> EntryRead(prefix, plan, toIndex, n.entry))
    && (residual.Some? ==> Holds(residual.value, parse, n.node))
  }

  function ScanOp(op: Operator): Scans.Operator {
    match op
    case Eq => Scans.Eq
    case Lt => Scans.Lt
    case Le => Scans.Le
    case Gt => Scans.Gt
    case Ge => Scans.Ge
    case Ne => Scans.Eq
  }

  /** The filter's view of a node is that of its stored value, which has the literal's type. */
  predicate Represents(p: Extracted, toIndex: ToIndex, n: Stored) {
    && (n.entry.Some? ==> Scans.SameType(n.entry.value.value, toIndex(p.value)))
    && (n.node.compares(p.property, p.op, p.value) <==>
          n.entry.Some? && Scans.Selects(ScanOp(p.op), n.entry.value.value, toIndex(p.value)))
  }

  /** The node has no entry, or one the scan for the predicate is right about. */
  predicate Fits(schema: Schema, p: Extracted, toIndex: ToIndex, n: Stored)
    requires p.property in schema
  {
    n.entry.Some? ==> ScanFits(ScanOp(p.op), n.entry.value, toIndex(p.value), schema[p.property] == Unique)
  }

  lemma RangeIs(prefix: Bytes, schema: Schema, p: Extracted, toIndex: ToIndex)
    requires PlanFor(schema, p).Some?
    ensures ScanRange(prefix, PlanFor(schema, p).value.range, toIndex)
         == (Scans.ScanStart(prefix, ScanOp(p.op), toIndex(p.value)), Scans.ScanEnd(prefix, ScanOp(p.op), toIndex(p.value)))
  {
    var c := Scans.EncodeValue(toIndex(p.value));
    assert c + [] == c;
    assert prefix + c + [0xFF] == prefix + (c + [0xFF]);
  }

  /** The chosen scan reads a node exactly if its comparison holds of it, when and only when the node fits. */
  lemma ReadIffHolds(prefix: Bytes, schema: Schema, p: Extracted, toIndex: ToIndex, n: Stored)
    requires PlanFor(schema, p).Some? && Represents(p, toIndex, n)
    ensures (EntryRead(prefix, PlanFor(schema, p).value, toIndex, n.entry) <==> n.node.compares(p.property, p.op, p.value))
            <==> Fits(schema, p, toIndex, n)
  {
    RangeIs(prefix, schema, p, toIndex);
    if n.entry.Some? {
      ScanFitsIff(prefix, ScanOp(p.op), n.entry.value, toIndex(p.value), schema[p.property] == Unique);
    }
  }

  /**
   * When the plan is right about a node: where the other terms hold, the node must fit the scan;
   * where they fail and are dropped, it must fit and fail the comparison, or neither.
   */
  ghost predicate RightAbout(parts: seq<string>, schema: Schema, preds: seq<Extracted>, i: nat, toIndex: ToIndex,
                             parse: Parser, n: Stored)
    requires i < |preds| && preds[i].rawIndex < |parts| && PlanFor(schema, preds[i]).Some?
  {
    var p := preds[i];
    if RestHolds(parts, p.rawIndex, parse, n.node) then Fits(schema, p, toIndex, n)
    else RestDropped(parts, preds) ==> (Fits(schema, p, toIndex, n) <==> !n.node.compares(p.property, p.op, p.value))
  }

  /**
   * If the used term can be taken out of the expression, the plan returns a node exactly if the
   * expression holds of it, when and only when it is right about it.
   */
  lemma ReturnedIff(prefix: Bytes, expression: string, parts: seq<string>, schema: Schema, preds: seq<Extracted>, i: nat,
                    toIndex: ToIndex, parse: Parser, n: Stored)
    requires SplitBoolean(expression) == Some([parts]) && preds == Recognised(parts, parse)
    requires i < |preds| && PlanFor(schema, preds[i]).Some? && Represents(preds[i], toIndex, n)
    requires preds[i].rawIndex < |parts| && Takeable(expression, parts, preds[i].rawIndex)
    ensures (Returned(prefix, PlanFor(schema, preds[i]).value, BuildResidual(preds, Some(i), expression), toIndex, parse, n)
             <==> Holds(expression, parse, n.node))
            <==> RightAbout(parts, schema, preds, i, toIndex, parse, n)
  {
    RecognisedTerm(parts, parse, i);
    SingleGroup(expression, parts);
    TermApart(expression, parts, preds[i].rawIndex, parse, n.node);
    ResidualIs(expression, parts, preds, i, parse);
    ReadIffHolds(prefix, schema, preds[i], toIndex, n);
  }

  /** The plan returns the node exactly if the expression holds of it. */
  ghost predicate RightlyReturned(prefix: Bytes, expression: string, schema: Schema, preds: seq<Extracted>,
                                  used: Option<nat>, toIndex: ToIndex, parse: Parser, n: Stored) {
    Returned(prefix, Primary(schema, preds, used), BuildResidual(preds, used, expression), toIndex, parse, n)
    <==> Holds(expression, parse, n.node)
  }

  /** The answer over a store is exactly the nodes the expression holds of. */
  ghost predicate AnswersExactly(prefix: Bytes, expression: string, schema: Schema, preds: seq<Extracted>,
                                 used: Option<nat>, toIndex: ToIndex, parse: Parser, store: seq<Stored>) {
    forall n :: n in store ==> RightlyReturned(prefix, expression, schema, preds, used, toIndex, parse, n)
  }

  ghost predicate HoldsOfAll(expression: string, parse: Parser, store: seq<Stored>) {
    forall n :: n in store ==> Holds(expression, parse, n.node)
  }

  ghost predicate RightAboutAll(parts: seq<string>, schema: Schema, preds: seq<Extracted>, i: nat, toIndex: ToIndex,
                                parse: Parser, store: seq<Stored>)
    requires i < |preds| && preds[i].rawIndex < |parts| && PlanFor(schema, preds[i]).Some?
  {
    forall n :: n in store ==> RightAbout(parts, schema, preds, i, toIndex, parse, n)
  }

  /** What has to be true of the stored nodes: nothing, unless an index is used or no term is recognised. */
  ghost predicate StoreSuits(expression: string, groups: seq<seq<string>>, schema: Schema, preds: seq<Extracted>,
                             used: Option<nat>, toIndex: ToIndex, parse: Parser, store: seq<Stored>) {
    if preds == [] then HoldsOfAll(expression, parse, store)
    else used.Some? ==>
           && |groups| == 1 && used.value < |preds| && preds[used.value].rawIndex < |groups[0]|
           && PlanFor(schema, preds[used.value]).Some?
           && RightAboutAll(groups[0], schema, preds, used.value, toIndex, parse, store)
  }

  lemma IndexedIff(prefix: Bytes, expression: string, parts: seq<string>, schema: Schema, preds: seq<Extracted>, i: nat,
                   toIndex: ToIndex, parse: Parser, store: seq<Stored>)
    requires SplitBoolean(expression) == Some([parts]) && preds == Recognised(parts, parse)
    requires i < |preds| && PlanFor(schema, preds[i]).Some?
    requires forall n :: n in store ==> Represents(preds[i], toIndex, n)
    requires preds[i].rawIndex < |parts| && Takeable(expression, parts, preds[i].rawIndex)
    ensures AnswersExactly(prefix, expression, schema, preds, Some(i), toIndex, parse, store)
            <==> RightAboutAll(parts, schema, preds, i, toIndex, parse, store)
  {
    forall n | n in store
      ensures RightlyReturned(prefix, expression, schema, preds, Some(i), toIndex, parse, n)
              <==> RightAbout(parts, schema, preds, i, toIndex, parse, n)
    {
      ReturnedIff(prefix, expression, parts, schema, preds, i, toIndex, parse, n);
    }
  }

  /** Without an index the whole expression is checked on every node; without recognised terms nothing is. */
  lemma UnindexedIff(prefix: Bytes, expression: string, schema: Schema, preds: seq<Extracted>, toIndex: ToIndex,
                     parse: Parser, store: seq<Stored>)
    ensures AnswersExactly(prefix, expression, schema, preds, None, toIndex, parse, store)
            <==> (preds == [] ==> HoldsOfAll(expression, parse, store))
  {
    forall n | n in store
      ensures RightlyReturned(prefix, expression, schema, preds, None, toIndex, parse, n)
              <==> (preds == [] ==> Holds(expression, parse, n.node))
    {
    }
  }

  /** No index is used, or one for a term that can be taken out of the expression. */
  ghost predicate UsedIsTakeable(expression: string, groups: seq<seq<string>>, preds: seq<Extracted>,
                                 used: Option<nat>) {
    used.Some? ==>
      && |groups| == 1 && used.value < |preds| && preds[used.value].rawIndex < |groups[0]|
      && Takeable(expression, groups[0], preds[used.value].rawIndex)
  }

  /**
   * For every expression planned without an index or with one for a term that can be taken out, and
   * every schema and store: access path and residual together return exactly the nodes the expression
   * holds of if and only if the store suits the plan.
   */
  lemma AnswersExactlyIff(prefix: Bytes, expression: string, groups: seq<seq<string>>, schema: Schema,
                          preds: seq<Extracted>, used: Option<nat>, toIndex: ToIndex, parse: Parser,
                          store: seq<Stored>)
    requires SplitBoolean(expression) == Some(groups) && preds == ExtractFrom(Some(groups), parse)
    requires FirstBest(schema, preds, used) && UsedIsTakeable(expression, groups, preds, used)
    requires used.Some? ==> forall n :: n in store ==> Represents(preds[used.value], toIndex, n)
    ensures AnswersExactly(prefix, expression, schema, preds, used, toIndex, parse, store)
            <==> StoreSuits(expression, groups, schema, preds, used, toIndex, parse, store)
  {
    if used.Some? {
      assert groups == [groups[0]];
      IndexedIff(prefix, expression, groups[0], schema, preds, used.value, toIndex, parse, store);
    } else {
      UnindexedIff(prefix, expression, schema, preds, toIndex, parse, store);
    }
  }

  /** A plan that keeps the whole filter, its used term taken out, is exact on every store whose nodes fit its scan. */
  lemma KeptAndFitting(prefix: Bytes, expression: string, groups: seq<seq<string>>, schema: Schema,
                       preds: seq<Extracted>, used: Option<nat>, toIndex: ToIndex, parse: Parser, store: seq<Stored>)
    requires SplitBoolean(expression) == Some(groups) && preds == ExtractFrom(Some(groups), parse)
    requires FirstBest(schema, preds, used) && Kept(groups, preds, used)
    requires UsedIsTakeable(expression, groups, preds, used)
    requires used.Some? ==> forall n :: n in store ==>
               Represents(preds[used.value], toIndex, n) && Fits(schema, preds[used.value], toIndex, n)
    ensures AnswersExactly(prefix, expression, schema, preds, used, toIndex, parse, store)
  {
    AnswersExactlyIff(prefix, expression, groups, schema, preds, used, toIndex, parse, store);
  }
}
