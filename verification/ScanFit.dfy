/**
 * Exactly when an index scan reads an entry if and only if the comparison selects it, for
 * every type, operator and kind of index (`execute_index_scan` in crates/pelago-query/src/executor.rs).
 */
module ScanFit {
  import opened Common
  import opened ByteOrder
  import opened Store
  import opened IndexScan

  /** What follows the index prefix in an entry's key: the value, and the node id unless the index is unique. */
  function KeyTail(e: IndexEntry, unique: bool): Bytes {
    EncodeValue(e.value) + (if unique then [] else e.id)
  }

  predicate Reads(prefix: Bytes, op: Operator, e: IndexEntry, c: IndexValue, unique: bool) {
    InRange(prefix + KeyTail(e, unique), ScanStart(prefix, op, c), ScanEnd(prefix, op, c))
  }

  predicate BelowEnd(k: Bytes) {
    k == [] || k[0] < 0xFF
  }

  /** The scan without its prefix: where the rest of a key lies relative to the encoded literal. */
  predicate TailReads(op: Operator, k: Bytes, c: Bytes) {
    match op
    case Eq => AtMost(c, k) && Less(k, c + [0xFF])
    case Lt => Less(k, c)
    case Le => Less(k, c + [0xFF])
    case Gt => AtMost(c + [0xFF], k) && BelowEnd(k)
    case Ge => AtMost(c, k) && BelowEnd(k)
  }

  lemma PrefixAtMost(prefix: Bytes, a: Bytes, b: Bytes)
    ensures AtMost(prefix + a, prefix + b) <==> AtMost(a, b)
  {
    LessCommonPrefix(prefix, a, b);
  }

  lemma EndMeans(k: Bytes)
    ensures Less(k, [0xFF]) <==> BelowEnd(k)
  {
    if k != [] {
      assert !Less(k[1..], []);
    }
  }

  lemma ReadsTail(prefix: Bytes, op: Operator, k: Bytes, v: IndexValue)
    ensures InRange(prefix + k, ScanStart(prefix, op, v), ScanEnd(prefix, op, v)) <==> TailReads(op, k, EncodeValue(v))
  {
    var c := EncodeValue(v);
    PrefixAtMost(prefix, [], k);
    PrefixAtMost(prefix, c, k);
    PrefixAtMost(prefix, c + [0xFF], k);
    LessCommonPrefix(prefix, k, c);
    LessCommonPrefix(prefix, k, c + [0xFF]);
    LessCommonPrefix(prefix, k, [0xFF]);
    EndMeans(k);
    assert prefix + [] == prefix;
  }

  // ---- strings: stored raw, followed by the raw id ----

  /** Strings neither of which continues the other decide the order whatever follows them. */
  lemma {:induction false} LessApart(t: Bytes, c: Bytes, x: Bytes, y: Bytes)
    requires !(t <= c) && !(c <= t)
    ensures Less(t + x, c + y) <==> Less(t, c)
    ensures t + x != c + y
    decreases |t|
  {
    assert (t + x)[0] == t[0] && (c + y)[0] == c[0];
    if t[0] == c[0] {
      assert t == [t[0]] + t[1..] && c == [c[0]] + c[1..];
      assert (t + x)[1..] == t[1..] + x && (c + y)[1..] == c[1..] + y;
      LessApart(t[1..], c[1..], x, y);
    }
  }

  /** The text is the literal: the first byte of the id decides. */
  predicate SameFits(op: Operator, d: Bytes, k: Bytes) {
    match op
    case Eq => BelowEnd(d)
    case Lt => true
    case Le => BelowEnd(d)
    case Gt => BelowEnd(d) || !BelowEnd(k)
    case Ge => BelowEnd(k)
  }

  /** The literal continues the text by `z`: the id stands where the rest of the literal would. */
  predicate ShorterFits(op: Operator, d: Bytes, z: Bytes, k: Bytes) {
    match op
    case Eq => !(z <= d && (|z| < |d| ==> d[|z|] < 0xFF))
    case Lt => Less(d, z)
    case Le => Less(d, z + [0xFF])
    case Gt => Less(d, z + [0xFF]) || !BelowEnd(k)
    case Ge => Less(d, z) || !BelowEnd(k)
  }

  /** The text continues the literal with byte `b`. */
  predicate LongerFits(op: Operator, b: Byte, k: Bytes) {
    match op
    case Eq => b == 0xFF
    case Lt => true
    case Le => b == 0xFF
    case Gt => b == 0xFF && BelowEnd(k)
    case Ge => BelowEnd(k)
  }

  /** For text `t`, what follows it `d` and literal `c`. */
  predicate StringFits(op: Operator, t: Bytes, d: Bytes, c: Bytes) {
    if t == c then SameFits(op, d, t + d)
    else if t <= c then ShorterFits(op, d, c[|t|..], t + d)
    else if c <= t then LongerFits(op, t[|c|], t + d)
    else op in {Gt, Ge} && Less(c, t) ==> BelowEnd(t + d)
  }

  predicate TextSelects(op: Operator, t: Bytes, c: Bytes) {
    Selects(op, StringValue(t), StringValue(c))
  }

  lemma ProperPrefixLess(a: Bytes, b: Bytes)
    requires a <= b && a != b
    ensures Less(a, b) && !Less(b, a)
  {
    var z := b[|a|..];
    assert b == a + z && a == a + [];
    LessCommonPrefix(a, [], z);
    LessTrichotomy(a, b);
  }

  lemma FitsSame(op: Operator, t: Bytes, d: Bytes)
    ensures (TailReads(op, t + d, t) <==> TextSelects(op, t, t)) <==> SameFits(op, d, t + d)
  {
    assert t == t + [];
    LessIrreflexive(t);
    PrefixAtMost(t, [], d);
    LessCommonPrefix(t, d, []);
    LessCommonPrefix(t, d, [0xFF]);
    EndMeans(d);
    NotLess(t + d, t + [0xFF]);
  }

  lemma FitsShorter(op: Operator, t: Bytes, d: Bytes, z: Bytes)
    requires z != []
    ensures (TailReads(op, t + d, t + z) <==> TextSelects(op, t, t + z)) <==> ShorterFits(op, d, z, t + d)
  {
    ProperPrefixLess(t, t + z);
    assert t + z + [0xFF] == t + (z + [0xFF]);
    PrefixAtMost(t, z, d);
    LessCommonPrefix(t, d, z);
    LessCommonPrefix(t, d, z + [0xFF]);
    PrefixRange(z, d);
    NotLess(t + d, t + z);
    NotLess(t + d, t + z + [0xFF]);
  }

  lemma FitsLonger(op: Operator, c: Bytes, z: Bytes, d: Bytes)
    requires z != []
    ensures (TailReads(op, c + z + d, c) <==> TextSelects(op, c + z, c)) <==> LongerFits(op, z[0], c + z + d)
  {
    ProperPrefixLess(c, c + z);
    assert c + z + d == c + (z + d) && c == c + [];
    PrefixAtMost(c, [], z + d);
    LessCommonPrefix(c, z + d, []);
    LessCommonPrefix(c, z + d, [0xFF]);
    EndMeans(z + d);
    NotLess(c + z + d, c + [0xFF]);
  }

  lemma FitsApart(op: Operator, t: Bytes, d: Bytes, c: Bytes)
    requires !(t <= c) && !(c <= t)
    ensures (TailReads(op, t + d, c) <==> TextSelects(op, t, c)) <==>
            (op in {Gt, Ge} && Less(c, t) ==> BelowEnd(t + d))
  {
    LessApart(t, c, d, []);
    LessApart(t, c, d, [0xFF]);
    assert c + [] == c;
    LessTrichotomy(t, c);
    NotLess(t + d, c);
    NotLess(t + d, c + [0xFF]);
  }

  /** When a scan for a string comparison is right about a stored text. */
  lemma StringFitsIff(op: Operator, t: Bytes, d: Bytes, c: Bytes)
    ensures (TailReads(op, t + d, c) <==> TextSelects(op, t, c)) <==> StringFits(op, t, d, c)
  {
    if t == c {
      FitsSame(op, t, d);
    } else if t <= c {
      assert c == t + c[|t|..];
      FitsShorter(op, t, d, c[|t|..]);
    } else if c <= t {
      assert t == c + t[|c|..];
      FitsLonger(op, c, t[|c|..], d);
    } else {
      FitsApart(op, t, d, c);
    }
  }

  // ---- every type and kind of index ----

  /** The two 0xFF side conditions of values of fixed width. */
  predicate FixedFits(op: Operator, e: IndexEntry, c: IndexValue) {
    && (op in {Eq, Le, Gt} && e.value == c ==> SiteBelowMax(e) || (op == Gt && !HeadBelowMax(e.value)))
    && (op in {Gt, Ge} && Selects(op, e.value, c) ==> HeadBelowMax(e.value))
  }

  predicate ScanFits(op: Operator, e: IndexEntry, c: IndexValue, unique: bool) {
    if e.value.StringValue? && c.StringValue?
    then StringFits(op, e.value.text, if unique then [] else e.id, c.text)
    else unique || FixedFits(op, e, c)
  }

  /** A scan and the comparison agree on an entry exactly when the entry fits. */
  lemma ScanFitsIff(prefix: Bytes, op: Operator, e: IndexEntry, c: IndexValue, unique: bool)
    requires SameType(e.value, c) && (unique ==> op == Eq)
    ensures (Reads(prefix, op, e, c, unique) <==> Selects(op, e.value, c)) <==> ScanFits(op, e, c, unique)
  {
    if c.StringValue? {
      var d := if unique then [] else e.id;
      ReadsTail(prefix, op, e.value.text + d, c);
      StringFitsIff(op, e.value.text, d, c.text);
    } else if unique {
      assert EncodeValue(e.value) + [] == EncodeValue(e.value);
      UniqueEqualityExact(prefix, e.value, c);
    } else {
      ScanExactness(prefix, op, e, c);
    }
  }

  // ---- whole scans ----

  function TailRow(prefix: Bytes, e: IndexEntry, unique: bool): IndexRow {
    Row(prefix + KeyTail(e, unique), if unique then e.id else [])
  }

  function IndexRows(prefix: Bytes, entries: seq<IndexEntry>, unique: bool): (r: seq<IndexRow>)
    ensures |r| == |entries|
  {
    Map(entries, (e: IndexEntry) => TailRow(prefix, e, unique))
  }

  lemma RowsCons(prefix: Bytes, e: IndexEntry, rest: seq<IndexEntry>, unique: bool)
    ensures IndexRows(prefix, [e] + rest, unique) == [TailRow(prefix, e, unique)] + IndexRows(prefix, rest, unique)
  {
  }

  /** Filtering rows is filtering entries when the two tests agree. */
  lemma {:induction false} FilterIndexRows(prefix: Bytes, entries: seq<IndexEntry>, unique: bool,
                                           p: IndexEntry -> bool, q: IndexRow -> bool)
    requires forall e :: e in entries ==> p(e) == q(TailRow(prefix, e, unique))
    ensures Filter(IndexRows(prefix, entries, unique), q) == IndexRows(prefix, Filter(entries, p), unique)
    decreases |entries|
  {
    if entries != [] {
      FilterIndexRows(prefix, entries[1..], unique, p, q);
      RowsCons(prefix, entries[0], entries[1..], unique);
      RowsCons(prefix, entries[0], Filter(entries[1..], p), unique);
      assert entries == [entries[0]] + entries[1..];
      var rows := IndexRows(prefix, entries, unique);
      assert rows[0] == TailRow(prefix, entries[0], unique) && rows[1..] == IndexRows(prefix, entries[1..], unique);
    }
  }

  function ReadsOf(prefix: Bytes, op: Operator, c: IndexValue, unique: bool): IndexEntry -> bool {
    (e: IndexEntry) => Reads(prefix, op, e, c, unique)
  }

  function SelectsOf(op: Operator, c: IndexValue): IndexEntry -> bool {
    (e: IndexEntry) => Selects(op, e.value, c)
  }

  /** A whole scan, long enough, of an index holding `entries`. */
  function Scan(prefix: Bytes, entries: seq<IndexEntry>, op: Operator, c: IndexValue, unique: bool): seq<IndexRow> {
    GetRange(IndexRows(prefix, entries, unique), ScanStart(prefix, op, c), ScanEnd(prefix, op, c), |entries|)
  }

  lemma ScanIs(prefix: Bytes, entries: seq<IndexEntry>, op: Operator, c: IndexValue, unique: bool)
    ensures Scan(prefix, entries, op, c, unique)
         == IndexRows(prefix, Filter(entries, ReadsOf(prefix, op, c, unique)), unique)
  {
    var within := Within(ScanStart(prefix, op, c), ScanEnd(prefix, op, c));
    FilterIndexRows(prefix, entries, unique, ReadsOf(prefix, op, c, unique), within);
    FilterLength(entries, ReadsOf(prefix, op, c, unique));
  }

  lemma RowsTellApart(prefix: Bytes, entries: seq<IndexEntry>, unique: bool, a: IndexEntry, b: IndexEntry)
    requires KeysAscending(IndexRows(prefix, entries, unique)) && a in entries && b in entries
    requires TailRow(prefix, a, unique) == TailRow(prefix, b, unique)
    ensures a == b
  {
    var i :| 0 <= i < |entries| && entries[i] == a;
    var j :| 0 <= j < |entries| && entries[j] == b;
    var rows := IndexRows(prefix, entries, unique);
    LessIrreflexive(rows[i].key);
    assert !(i < j) && !(j < i);
  }

  /** Two selections of stored entries with the same rows are the same selection. */
  lemma SameRows(prefix: Bytes, entries: seq<IndexEntry>, unique: bool, p: IndexEntry -> bool, q: IndexEntry -> bool)
    requires KeysAscending(IndexRows(prefix, entries, unique))
    requires IndexRows(prefix, Filter(entries, p), unique) == IndexRows(prefix, Filter(entries, q), unique)
    ensures Filter(entries, p) == Filter(entries, q)
  {
    var a, b := Filter(entries, p), Filter(entries, q);
    assert |a| == |IndexRows(prefix, a, unique)| == |b|;
    forall i | 0 <= i < |a|
      ensures a[i] == b[i]
    {
      FilterMember(entries, p, a[i]);
      FilterMember(entries, q, b[i]);
      assert TailRow(prefix, a[i], unique) == IndexRows(prefix, a, unique)[i] == TailRow(prefix, b[i], unique);
      RowsTellApart(prefix, entries, unique, a[i], b[i]);
    }
  }

  lemma SameFilter(entries: seq<IndexEntry>, p: IndexEntry -> bool, q: IndexEntry -> bool)
    ensures Filter(entries, p) == Filter(entries, q) <==> forall e :: e in entries ==> p(e) == q(e)
  {
    if Filter(entries, p) == Filter(entries, q) {
      forall e | e in entries
        ensures p(e) == q(e)
      {
        FilterMember(entries, p, e);
        FilterMember(entries, q, e);
      }
    } else if forall e :: e in entries ==> p(e) == q(e) {
      FilterCong(entries, p, q);
    }
  }

  /**
   * For every index of one type, listed in key order: a scan returns exactly the entries the
   * comparison selects, in that order, if and only if every entry fits.
   */
  lemma ScanSelectsIff(prefix: Bytes, entries: seq<IndexEntry>, op: Operator, c: IndexValue, unique: bool)
    requires unique ==> op == Eq
    requires forall e :: e in entries ==> SameType(e.value, c)
    requires KeysAscending(IndexRows(prefix, entries, unique))
    ensures Scan(prefix, entries, op, c, unique) == IndexRows(prefix, Filter(entries, SelectsOf(op, c)), unique) <==>
            forall e :: e in entries ==> ScanFits(op, e, c, unique)
  {
    var p, q := ReadsOf(prefix, op, c, unique), SelectsOf(op, c);
    ScanIs(prefix, entries, op, c, unique);
    SameFilter(entries, p, q);
    forall e | e in entries
      ensures p(e) == q(e) <==> ScanFits(op, e, c, unique)
    {
      ScanFitsIff(prefix, op, e, c, unique);
    }
    if IndexRows(prefix, Filter(entries, p), unique) == IndexRows(prefix, Filter(entries, q), unique) {
      SameRows(prefix, entries, unique, p, q);
    }
  }

  predicate ValueThenId(a: IndexEntry, b: IndexEntry) {
    ValueLess(a.value, b.value) || (a.value == b.value && Less(a.id, b.id))
  }

  lemma SameTypeTransitive(v: IndexValue, w: IndexValue, c: IndexValue)
    requires SameType(v, c) && SameType(w, c)
    ensures SameType(v, w)
    ensures FixedWidth(v) == FixedWidth(c)
  {
  }

  /**
   * For values of fixed width the entries come in the order of value and id; whether the scan
   * is right depends on the two 0xFF side conditions only.
   */
  lemma ScanSelects(prefix: Bytes, entries: seq<IndexEntry>, op: Operator, c: IndexValue)
    requires FixedWidth(c)
    requires forall e :: e in entries ==> SameType(e.value, c)
    requires KeysAscending(IndexRows(prefix, entries, false))
    ensures forall i, j :: 0 <= i < j < |entries| ==> ValueThenId(entries[i], entries[j])
    ensures Scan(prefix, entries, op, c, false) == IndexRows(prefix, Filter(entries, SelectsOf(op, c)), false) <==>
            forall e :: e in entries ==> FixedFits(op, e, c)
  {
    ScanSelectsIff(prefix, entries, op, c, false);
    var rows := IndexRows(prefix, entries, false);
    forall i, j | 0 <= i < j < |entries|
      ensures ValueThenId(entries[i], entries[j])
    {
      assert Less(rows[i].key, rows[j].key);
      SameTypeTransitive(entries[i].value, entries[j].value, c);
      IndexKeyOrder(prefix, entries[i], entries[j]);
    }
  }

  // ---- what the executor returns ----

  /** The id of a stored entry is read back from its row. */
  lemma RowNodeId(prefix: Bytes, e: IndexEntry, unique: bool)
    ensures NodeIdOfRow(TailRow(prefix, e, unique), unique) == Some(e.id)
  {
    if !unique {
      var key := prefix + (EncodeValue(e.value) + e.id);
      assert key == prefix + EncodeValue(e.value) + e.id;
      assert key[|key| - 9..] == e.id;
    }
  }

  /** Key and node id of each entry. */
  function KeysAndIds(prefix: Bytes, entries: seq<IndexEntry>, unique: bool): (r: seq<(Bytes, Bytes)>)
    ensures |r| == |entries|
  {
    Map(entries, (e: IndexEntry) => (prefix + KeyTail(e, unique), e.id))
  }

  /** Over the rows of stored entries an answer names each entry's own id. */
  lemma AnswerNames(prefix: Bytes, entries: seq<IndexEntry>, unique: bool, out: Option<seq<(Bytes, Bytes)>>)
    requires ScanAnswer(IndexRows(prefix, entries, unique), unique, out)
    ensures out == Some(KeysAndIds(prefix, entries, unique))
  {
    var read := IndexRows(prefix, entries, unique);
    forall i | 0 <= i < |read|
      ensures read[i] == TailRow(prefix, entries[i], unique)
      ensures NodeIdOfRow(read[i], unique) == Some(entries[i].id)
    {
      RowNodeId(prefix, entries[i], unique);
    }
    assert out.Some? && ExtractsAll(read, unique, out.value);
    forall i | 0 <= i < |read|
      ensures out.value[i] == KeysAndIds(prefix, entries, unique)[i]
    {
      assert Extracts(read[i], unique, out.value[i]);
    }
    assert out.value == KeysAndIds(prefix, entries, unique);
  }

  /** The entry's key lies behind the cursor and below the end of the range. */
  function ReadsFrom(prefix: Bytes, op: Operator, c: IndexValue, unique: bool, cursor: Bytes): IndexEntry -> bool {
    (e: IndexEntry) => Less(cursor, prefix + KeyTail(e, unique)) && Less(prefix + KeyTail(e, unique), ScanEnd(prefix, op, c))
  }

  lemma RowsTake(prefix: Bytes, entries: seq<IndexEntry>, unique: bool, n: nat)
    ensures Take(IndexRows(prefix, entries, unique), n) == IndexRows(prefix, Take(entries, n), unique)
  {
  }

  /** A scan resumed at a cursor returns, of the entries behind it, the first `limit` in the range, each with its id. */
  lemma ResumedScanReturns(prefix: Bytes, entries: seq<IndexEntry>, op: Operator, c: IndexValue, unique: bool,
                           cursor: Bytes, limit: nat, out: Option<seq<(Bytes, Bytes)>>)
    requires ScanAnswer(ReadRows(IndexRows(prefix, entries, unique), prefix, op, c, Some(cursor), limit), unique, out)
    ensures var found := Filter(entries, ReadsFrom(prefix, op, c, unique, cursor));
            out == Some(KeysAndIds(prefix, Take(found, Max(limit, 1)), unique))
  {
    var p := ReadsFrom(prefix, op, c, unique, cursor);
    var within := Within(cursor + [0x00], ScanEnd(prefix, op, c));
    forall e | e in entries
      ensures p(e) == within(TailRow(prefix, e, unique))
    {
      ExclusiveStart(cursor, prefix + KeyTail(e, unique));
    }
    FilterIndexRows(prefix, entries, unique, p, within);
    RowsTake(prefix, Filter(entries, p), unique, Max(limit, 1));
    AnswerNames(prefix, Take(Filter(entries, p), Max(limit, 1)), unique, out);
  }

  lemma WholeScanReturns(prefix: Bytes, entries: seq<IndexEntry>, op: Operator, c: IndexValue, unique: bool, limit: nat,
                         out: Option<seq<(Bytes, Bytes)>>)
    requires ScanAnswer(ReadRows(IndexRows(prefix, entries, unique), prefix, op, c, None, limit), unique, out)
    ensures var found := Filter(entries, ReadsOf(prefix, op, c, unique));
            out == Some(KeysAndIds(prefix, Take(found, Max(limit, 1)), unique))
  {
    var p := ReadsOf(prefix, op, c, unique);
    FilterIndexRows(prefix, entries, unique, p, Within(ScanStart(prefix, op, c), ScanEnd(prefix, op, c)));
    RowsTake(prefix, Filter(entries, p), unique, Max(limit, 1));
    AnswerNames(prefix, Take(Filter(entries, p), Max(limit, 1)), unique, out);
  }

  lemma SameKeysAndIds(prefix: Bytes, a: seq<IndexEntry>, b: seq<IndexEntry>, unique: bool)
    ensures KeysAndIds(prefix, a, unique) == KeysAndIds(prefix, b, unique) ==>
            IndexRows(prefix, a, unique) == IndexRows(prefix, b, unique)
  {
    if KeysAndIds(prefix, a, unique) == KeysAndIds(prefix, b, unique) {
      var rows, rows' := IndexRows(prefix, a, unique), IndexRows(prefix, b, unique);
      assert |rows| == |KeysAndIds(prefix, a, unique)| == |rows'|;
      forall i | 0 <= i < |rows|
        ensures rows[i] == rows'[i]
      {
        assert KeysAndIds(prefix, a, unique)[i] == KeysAndIds(prefix, b, unique)[i];
      }
    }
  }

  /**
   * The scan loop, without a cursor and with room for all: it returns the keys and node ids of
   * exactly the entries the comparison selects, in order, if and only if every entry fits.
   */
  lemma ScanReturnsIff(prefix: Bytes, entries: seq<IndexEntry>, op: Operator, c: IndexValue, unique: bool, limit: nat,
                       out: Option<seq<(Bytes, Bytes)>>)
    requires unique ==> op == Eq
    requires forall e :: e in entries ==> SameType(e.value, c)
    requires KeysAscending(IndexRows(prefix, entries, unique)) && limit >= |entries|
    requires ScanAnswer(ReadRows(IndexRows(prefix, entries, unique), prefix, op, c, None, limit), unique, out)
    ensures out == Some(KeysAndIds(prefix, Filter(entries, SelectsOf(op, c)), unique)) <==>
            forall e :: e in entries ==> ScanFits(op, e, c, unique)
  {
    var p, q := ReadsOf(prefix, op, c, unique), SelectsOf(op, c);
    WholeScanReturns(prefix, entries, op, c, unique, limit, out);
    FilterLength(entries, p);
    ScanIs(prefix, entries, op, c, unique);
    ScanSelectsIff(prefix, entries, op, c, unique);
    SameKeysAndIds(prefix, Filter(entries, p), Filter(entries, q), unique);
    if IndexRows(prefix, Filter(entries, p), unique) == IndexRows(prefix, Filter(entries, q), unique) {
      SameRows(prefix, entries, unique, p, q);
    }
  }
}
