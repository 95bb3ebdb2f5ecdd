/** Nodes and edges, and the strings under which sets of them are kept. */
module NodeKeys {
  import opened Text
  import opened Numbers

  datatype NodeRef = NodeRef(entityType: string, id: string)

  function VisitKey(r: NodeRef): string {
    r.entityType + ":" + r.id
  }

  predicate ColonFree(s: string) {
    ':' !in s
  }

  /** Node ids are `site_seq`, so the key determines the node. */
  lemma VisitKeyInjective(a: NodeRef, b: NodeRef)
    requires ColonFree(a.id) && ColonFree(b.id) && VisitKey(a) == VisitKey(b)
    ensures a == b
  {
    var x, m, n := VisitKey(a), |a.entityType|, |b.entityType|;
    assert x[m] == ':' && x[n] == ':';
    assert forall i :: m < i < |x| ==> x[i] == a.id[i - m - 1];
    assert forall i :: n < i < |x| ==> x[i] == b.id[i - n - 1];
    assert a.entityType == x[..m] && b.entityType == x[..n];
    assert a.id == x[m + 1..] && b.id == x[n + 1..];
  }

  /** A colon in an id lets two different nodes share one key. */
  lemma VisitKeyCollides()
    ensures VisitKey(NodeRef("A", "b:c")) == VisitKey(NodeRef("A:b", "c"))
  {
    assert VisitKey(NodeRef("A", "b:c")) == "A:b:c";
    assert VisitKey(NodeRef("A:b", "c")) == "A:b:c";
  }

  ghost predicate KeysDistinct(rs: set<NodeRef>) {
    forall a, b :: a in rs && b in rs && VisitKey(a) == VisitKey(b) ==> a == b
  }

  function Keys(rs: set<NodeRef>): set<string> {
    set r | r in rs :: VisitKey(r)
  }

  // ---- edges ----

  datatype Edge = Edge(edgeId: string, source: NodeRef, target: NodeRef, edgeLabel: string,
                       properties: map<string, string>, createdAt: int)

  function KeyParts(e: Edge): seq<string> {
    [e.edgeId, e.source.entityType, e.source.id, e.edgeLabel, e.target.entityType, e.target.id, Decimal(e.createdAt)]
  }

  /** The key under which a merge recognises an edge it has seen. */
  function EdgeKey(e: Edge): string {
    JoinBar(KeyParts(e))
  }

  predicate BarFreeEdge(e: Edge) {
    && BarFree(e.edgeId) && BarFree(e.source.entityType) && BarFree(e.source.id) && BarFree(e.edgeLabel)
    && BarFree(e.target.entityType) && BarFree(e.target.id) && IsI64(e.createdAt)
  }

  /** Without `|` in its fields, the key determines an edge up to its properties. */
  lemma EdgeKeyInjective(a: Edge, b: Edge)
    requires BarFreeEdge(a) && BarFreeEdge(b) && EdgeKey(a) == EdgeKey(b)
    ensures a.(properties := map[]) == b.(properties := map[])
  {
    var x, y := KeyParts(a), KeyParts(b);
    DecimalBarFree(a.createdAt);
    DecimalBarFree(b.createdAt);
    JoinInjective(x, y);
    assert x[0] == y[0] && x[1] == y[1] && x[2] == y[2] && x[3] == y[3] && x[4] == y[4] && x[5] == y[5] && x[6] == y[6];
    DecimalInjective(a.createdAt, b.createdAt);
  }

  lemma DecimalBarFree(n: int)
    ensures BarFree(Decimal(n))
  {
    var m: nat := if n < 0 then -n else n;
    DigitsRead(m);
    assert forall i :: 0 <= i < |Digits(m)| ==> '0' <= Digits(m)[i] <= '9';
  }
}
