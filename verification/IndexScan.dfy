/**
 * Index scans over byte-ordered keys (crates/pelago-query/src/executor.rs,
 * crates/pelago-storage/src/index.rs).
 */
module IndexScan {
  import opened Common
  import opened ByteOrder
  import opened Encoding
  import opened Store

  /** The values an index stores; null has no index entry. Floats are bit patterns. */
  datatype IndexValue =
    | IntValue(n: I64)
    | FloatValue(bits: Bits64)
    | TimestampValue(t: I64)
    | BoolValue(b: bool)
    | StringValue(text: Bytes)

  datatype Operator = Eq | Lt | Le | Gt | Ge

  function EncodeValue(v: IndexValue): Bytes {
    match v
    case IntValue(n) => EncodeInt(n)
    case FloatValue(bits) => EncodeFloat(bits)
    case TimestampValue(t) => EncodeInt(t)
    case BoolValue(b) => if b then [0x01] else [0x00]
    case StringValue(text) => text
  }

  predicate SameType(v: IndexValue, w: IndexValue) {
    match v
    case IntValue(_) => w.IntValue?
    case FloatValue(_) => w.FloatValue?
    case TimestampValue(_) => w.TimestampValue?
    case BoolValue(_) => w.BoolValue?
    case StringValue(_) => w.StringValue?
  }

  predicate FixedWidth(v: IndexValue) {
    !v.StringValue?
  }

  /** `v` is strictly before `w`: the plain order of the type, IEEE totalOrder for floats. */
  predicate ValueLess(v: IndexValue, w: IndexValue) {
    match (v, w)
    case (IntValue(x), IntValue(y)) => x < y
    case (FloatValue(x), FloatValue(y)) => TotalOrder(x, y) && x != y
    case (TimestampValue(x), TimestampValue(y)) => x < y
    case (BoolValue(x), BoolValue(y)) => !x && y
    case (StringValue(x), StringValue(y)) => Less(x, y)
    case _ => false
  }

  /** What the comparison `v op c` selects. */
  predicate Selects(op: Operator, v: IndexValue, c: IndexValue) {
    match op
    case Eq => v == c
    case Lt => ValueLess(v, c)
    case Le => ValueLess(v, c) || v == c
    case Gt => ValueLess(c, v)
    case Ge => ValueLess(c, v) || v == c
  }

  type NodeIdBytes = id: seq<Byte> | |id| == 9 witness [0, 0, 0, 0, 0, 0, 0, 0, 0]

  datatype IndexEntry = IndexEntry(value: IndexValue, id: NodeIdBytes)

  /** Equality and range index keys: subspace and marker, value, node id, all raw. */
  function IndexKey(prefix: Bytes, e: IndexEntry): Bytes {
    prefix + (EncodeValue(e.value) + e.id)
  }

  function ScanStart(prefix: Bytes, op: Operator, c: IndexValue): Bytes {
    match op
    case Eq => prefix + EncodeValue(c)
    case Lt => prefix
    case Le => prefix
    case Gt => prefix + (EncodeValue(c) + [0xFF])
    case Ge => prefix + EncodeValue(c)
  }

  function ScanEnd(prefix: Bytes, op: Operator, c: IndexValue): Bytes {
    match op
    case Eq => prefix + (EncodeValue(c) + [0xFF])
    case Lt => prefix + EncodeValue(c)
    case Le => prefix + (EncodeValue(c) + [0xFF])
    case Gt => prefix + [0xFF]
    case Ge => prefix + [0xFF]
  }

  /** The node id's site byte, the first byte after the value. */
  predicate SiteBelowMax(e: IndexEntry) {
    e.id[0] < 0xFF
  }

  predicate HeadBelowMax(v: IndexValue) {
    EncodeValue(v) != [] && EncodeValue(v)[0] < 0xFF
  }

  lemma EncodeValueOrder(v: IndexValue, w: IndexValue)
    requires SameType(v, w)
    ensures Less(EncodeValue(v), EncodeValue(w)) <==> ValueLess(v, w)
    ensures EncodeValue(v) == EncodeValue(w) <==> v == w
    ensures FixedWidth(v) ==> |EncodeValue(v)| == |EncodeValue(w)| > 0
  {
    match v
    case IntValue(x) => EncodeIntOrder(x, w.n);
    case TimestampValue(x) => EncodeIntOrder(x, w.t);
    case FloatValue(x) =>
      EncodeFloatOrder(x, w.bits);
      LessTrichotomy(EncodeFloat(x), EncodeFloat(w.bits));
    case BoolValue(_) =>
    case StringValue(x) => LessTrichotomy(x, w.text);
  }

  /** Keys of one fixed-width type are in (value, id) order. */
  lemma IndexKeyOrder(prefix: Bytes, e: IndexEntry, f: IndexEntry)
    requires SameType(e.value, f.value) && FixedWidth(e.value)
    ensures Less(IndexKey(prefix, e), IndexKey(prefix, f)) <==>
            ValueLess(e.value, f.value) || (e.value == f.value && Less(e.id, f.id))
  {
    EncodeValueOrder(e.value, f.value);
    LessCommonPrefix(prefix, EncodeValue(e.value) + e.id, EncodeValue(f.value) + f.id);
    LessEqualWidth(EncodeValue(e.value), EncodeValue(f.value), e.id, f.id);
  }

  /** Where a stored key lies relative to a bound `c` and to `c ++ 0xFF`. */
  lemma BoundCompare(prefix: Bytes, e: IndexEntry, c: IndexValue)
    requires SameType(e.value, c) && FixedWidth(c)
    ensures Less(IndexKey(prefix, e), prefix + EncodeValue(c)) <==> ValueLess(e.value, c)
    ensures Less(IndexKey(prefix, e), prefix + (EncodeValue(c) + [0xFF])) <==>
            ValueLess(e.value, c) || (e.value == c && SiteBelowMax(e))
    ensures IndexKey(prefix, e) != prefix + EncodeValue(c)
    ensures IndexKey(prefix, e) != prefix + (EncodeValue(c) + [0xFF])
  {
    var v, w := EncodeValue(e.value), EncodeValue(c);
    EncodeValueOrder(e.value, c);
    LessCommonPrefix(prefix, v + e.id, w + []);
    LessCommonPrefix(prefix, v + e.id, w + [0xFF]);
    LessEqualWidth(v, w, e.id, []);
    LessEqualWidth(v, w, e.id, [0xFF]);
    assert w + [] == w;
    assert !Less(e.id[1..], []);
    assert Less(e.id, [0xFF]) <==> e.id[0] < 0xFF;
  }

  lemma PrefixBounds(prefix: Bytes, e: IndexEntry)
    requires EncodeValue(e.value) != []
    ensures AtMost(prefix, IndexKey(prefix, e))
    ensures Less(IndexKey(prefix, e), prefix + [0xFF]) <==> HeadBelowMax(e.value)
  {
    var rest := EncodeValue(e.value) + e.id;
    LessCommonPrefix(prefix, [], rest);
    LessCommonPrefix(prefix, rest, [0xFF]);
    assert prefix + [] == prefix;
    assert !Less(rest[1..], []);
    assert rest[0] == EncodeValue(e.value)[0];
  }

  /**
   * Exactly which entries a scan reads, with no assumption on the ids or values: the
   * 0xFF range ends drop site 255 from `==` and `<=`, let it into `>`, and drop values
   * whose first byte is 0xFF from the open-ended ranges.
   */
  predicate Scanned(op: Operator, e: IndexEntry, c: IndexValue) {
    match op
    case Eq => e.value == c && SiteBelowMax(e)
    case Lt => ValueLess(e.value, c)
    case Le => ValueLess(e.value, c) || (e.value == c && SiteBelowMax(e))
    case Gt => (ValueLess(c, e.value) || (e.value == c && !SiteBelowMax(e))) && HeadBelowMax(e.value)
    case Ge => (ValueLess(c, e.value) || e.value == c) && HeadBelowMax(e.value)
  }

  lemma ScanMembership(prefix: Bytes, op: Operator, e: IndexEntry, c: IndexValue)
    requires SameType(e.value, c) && FixedWidth(c)
    ensures InRange(IndexKey(prefix, e), ScanStart(prefix, op, c), ScanEnd(prefix, op, c)) <==> Scanned(op, e, c)
  {
    BoundCompare(prefix, e, c);
    EncodeValueOrder(e.value, c);
    EncodeValueOrder(c, e.value);
    PrefixBounds(prefix, e);
    LessTrichotomy(EncodeValue(e.value), EncodeValue(c));
    NotLess(IndexKey(prefix, e), prefix + EncodeValue(c));
    NotLess(IndexKey(prefix, e), prefix + (EncodeValue(c) + [0xFF]));
  }

  /** A scan agrees with the comparison exactly when neither 0xFF side condition bites. */
  lemma ScanExactness(prefix: Bytes, op: Operator, e: IndexEntry, c: IndexValue)
    requires SameType(e.value, c) && FixedWidth(c)
    ensures (InRange(IndexKey(prefix, e), ScanStart(prefix, op, c), ScanEnd(prefix, op, c)) <==> Selects(op, e.value, c))
            <==> ((op in {Eq, Le, Gt} && e.value == c ==>
                     SiteBelowMax(e) || (op == Gt && !HeadBelowMax(e.value)))
                  && (op in {Gt, Ge} && Selects(op, e.value, c) ==> HeadBelowMax(e.value)))
  {
    ScanMembership(prefix, op, e, c);
    EncodeValueOrder(e.value, c);
    EncodeValueOrder(c, e.value);
    LessTrichotomy(EncodeValue(e.value), EncodeValue(c));
  }

  // ---- whole scans ----

  type IndexRow = Row<Bytes>

  /** A unique index stores the node id as the value; other kinds append it to the key. */
  function NodeIdOfRow(r: IndexRow, unique: bool): Option<Bytes> {
    if unique then Some(r.value)
    else if |r.key| < 9 then None
    else Some(r.key[|r.key| - 9..])
  }

  /** Key and node id of a row. */
  predicate Extracts(r: IndexRow, unique: bool, pair: (Bytes, Bytes)) {
    NodeIdOfRow(r, unique) == Some(pair.1) && pair.0 == r.key
  }

  ghost predicate ExtractsAll(rows: seq<IndexRow>, unique: bool, pairs: seq<(Bytes, Bytes)>) {
    |pairs| == |rows| && forall i :: 0 <= i < |rows| ==> Extracts(rows[i], unique, pairs[i])
  }

  /** The rows a scan reads: from the range start or just behind the cursor, up to the limit. */
  function ReadRows(rows: seq<IndexRow>, prefix: Bytes, op: Operator, c: IndexValue, cursor: Option<Bytes>,
                    limit: nat): seq<IndexRow> {
    GetRange(rows, if cursor.Some? then cursor.value + [0x00] else ScanStart(prefix, op, c), ScanEnd(prefix, op, c),
             Max(limit, 1))
  }

  /** Key and node id of every row read, or nothing if a key is too short. */
  ghost predicate ScanAnswer(read: seq<IndexRow>, unique: bool, out: Option<seq<(Bytes, Bytes)>>) {
    if exists i :: 0 <= i < |read| && NodeIdOfRow(read[i], unique).None? then out == None
    else out.Some? && ExtractsAll(read, unique, out.value)
  }

  method ExecuteIndexScan(rows: seq<IndexRow>, prefix: Bytes, op: Operator, c: IndexValue, unique: bool,
                          cursor: Option<Bytes>, limit: nat)
    returns (out: Option<seq<(Bytes, Bytes)>>)
    ensures ScanAnswer(ReadRows(rows, prefix, op, c, cursor, limit), unique, out)
  {
    var lo := ScanStart(prefix, op, c);
    if cursor.Some? {
      lo := cursor.value + [0x00];
    }
    var read := GetRange(rows, lo, ScanEnd(prefix, op, c), Max(limit, 1));
    var acc: seq<(Bytes, Bytes)> := [];
    var i := 0;
    while i < |read|
      invariant 0 <= i <= |read| && ExtractsAll(read[..i], unique, acc)
    {
      var id := NodeIdOfRow(read[i], unique);
      assert read[..i + 1] == read[..i] + [read[i]];
      if id.None? {
        return None;
      }
      acc := acc + [(read[i].key, id.value)];
      i := i + 1;
    }
    assert read[..i] == read;
    out := Some(acc);
  }

  /** In a unique index, whose keys carry no id, equality scans of fixed-width values are exact. */
  lemma UniqueEqualityExact(prefix: Bytes, v: IndexValue, c: IndexValue)
    requires SameType(v, c) && FixedWidth(c)
    ensures InRange(prefix + EncodeValue(v), ScanStart(prefix, Eq, c), ScanEnd(prefix, Eq, c)) <==> Selects(Eq, v, c)
  {
    EncodeValueOrder(c, v);
    EncodeValueOrder(v, c);
    PrefixRange(prefix + EncodeValue(c), prefix + EncodeValue(v));
    var a, b := prefix + EncodeValue(c), prefix + EncodeValue(v);
    assert ScanEnd(prefix, Eq, c) == a + [0xFF];
    assert |a| == |b|;
    if a <= b {
      assert a == b;
    }
    LessCommonPrefix(prefix, EncodeValue(c), EncodeValue(v));
  }

  // ---- where the conditions are needed ----

  /** Site 255 is missed by an equality scan. */
  lemma EqualityMissesSite255(prefix: Bytes)
    ensures exists e: IndexEntry, c ::
              Selects(Eq, e.value, c) && !InRange(IndexKey(prefix, e), ScanStart(prefix, Eq, c), ScanEnd(prefix, Eq, c))
  {
    var e := IndexEntry(IntValue(0), [0xFF, 0, 0, 0, 0, 0, 0, 0, 1]);
    ScanMembership(prefix, Eq, e, IntValue(0));
    assert Selects(Eq, e.value, IntValue(0));
  }

  /** The largest integers, whose first encoded byte is 0xFF, are missed by `>=`. */
  lemma RangeMissesLargeInts(prefix: Bytes, n: I64, id: NodeIdBytes)
    ensures Selects(Ge, IntValue(n), IntValue(0)) && EncodeInt(n)[0] == 0xFF ==>
              !InRange(IndexKey(prefix, IndexEntry(IntValue(n), id)),
                       ScanStart(prefix, Ge, IntValue(0)), ScanEnd(prefix, Ge, IntValue(0)))
    ensures EncodeInt(n)[0] == 0xFF <==> n >= 0x7F00_0000_0000_0000
  {
    ScanMembership(prefix, Ge, IndexEntry(IntValue(n), id), IntValue(0));
    EncodeIntValue(n);
    ValueHead(EncodeInt(n));
    BoundEight();
  }

  /** Strings are stored without a terminator: an equality scan misses no entry of site < 255. */
  lemma StringEqualityComplete(prefix: Bytes, e: IndexEntry)
    requires e.value.StringValue? && SiteBelowMax(e)
    ensures InRange(IndexKey(prefix, e), ScanStart(prefix, Eq, e.value), ScanEnd(prefix, Eq, e.value))
  {
    var start := prefix + e.value.text;
    PrefixRange(start, IndexKey(prefix, e));
    assert IndexKey(prefix, e) == start + e.id;
    assert ScanEnd(prefix, Eq, e.value) == start + [0xFF];
  }

  /** ... and reads an entry exactly when its text extends the literal by no 0xFF. */
  lemma StringEqualityReads(prefix: Bytes, e: IndexEntry, c: Bytes)
    requires e.value.StringValue?
    ensures InRange(IndexKey(prefix, e), ScanStart(prefix, Eq, StringValue(c)), ScanEnd(prefix, Eq, StringValue(c)))
            <==> c <= e.value.text + e.id && (|c| < |e.value.text| + 9 ==> (e.value.text + e.id)[|c|] < 0xFF)
  {
    var k := e.value.text + e.id;
    PrefixRange(prefix + c, IndexKey(prefix, e));
    assert ScanEnd(prefix, Eq, StringValue(c)) == prefix + c + [0xFF];
    assert prefix + c <= prefix + k <==> c <= k by {
      assert c <= k ==> (prefix + k)[..|prefix + c|] == prefix + c;
      assert prefix + c <= prefix + k ==> c == (prefix + c)[|prefix|..] && k == (prefix + k)[|prefix|..];
    }
    if |c| < |k| {
      assert (prefix + k)[|prefix + c|] == k[|c|];
    }
  }

  /** So the scan for `status == 'ab'` also reads an entry whose status is 'abc'. */
  lemma StringEqualityNotExact(prefix: Bytes, id: NodeIdBytes)
    ensures var e := IndexEntry(StringValue([0x61, 0x62, 0x63]), id);
            var c := StringValue([0x61, 0x62]);
            !Selects(Eq, e.value, c) && InRange(IndexKey(prefix, e), ScanStart(prefix, Eq, c), ScanEnd(prefix, Eq, c))
  {
    StringEqualityReads(prefix, IndexEntry(StringValue([0x61, 0x62, 0x63]), id), [0x61, 0x62]);
    assert [0x61, 0x62] <= [0x61, 0x62, 0x63] + id;
  }

  // ---- floats: the index against the plain filter ----

  /** Equality of two floats as the filter evaluates it: zeros are equal, NaN is not. */
  predicate FilterFloatEqual(x: Bits64, c: Bits64) {
    !IsNaN(x) && !IsNaN(c) && !NumberLess(x, c) && !NumberLess(c, x)
  }

  predicate FilterFloatLess(x: Bits64, c: Bits64) {
    !IsNaN(x) && !IsNaN(c) && NumberLess(x, c)
  }

  predicate BothZero(x: Bits64, c: Bits64) {
    Unsigned(x) == 0 && Unsigned(c) == 0
  }

  /** The index's `==` differs from the filter's on zeros of opposite sign and on a NaN itself. */
  lemma FloatEqualityAgrees(x: Bits64, c: Bits64)
    ensures (Selects(Eq, FloatValue(x), FloatValue(c)) <==> FilterFloatEqual(x, c))
            <==> !(x != c && BothZero(x, c)) && !(x == c && IsNaN(x))
  {
    if !IsNaN(x) && !IsNaN(c) {
      NumberOrder(x, c);
      NumberOrder(c, x);
      TotalOrderIsSigned(x, c);
    }
  }

  /** The index's `<` differs from the filter's on -0 < +0 and on NaNs that totalOrder ranks. */
  lemma FloatLessAgrees(x: Bits64, c: Bits64)
    ensures (Selects(Lt, FloatValue(x), FloatValue(c)) <==> FilterFloatLess(x, c))
            <==> !(TotalOrder(x, c) && x != c && (IsNaN(x) || IsNaN(c) || BothZero(x, c)))
  {
    TotalOrderIsSigned(x, c);
    if !IsNaN(x) && !IsNaN(c) {
      NumberOrder(x, c);
    }
  }
}
