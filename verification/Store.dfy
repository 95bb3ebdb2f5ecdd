/**
 * The ordered key-value store: rows in key order, range reads, and clearing keys in
 * transactions whose commit may fail.
 */
module Store {
  import opened Common
  import opened ByteOrder

  datatype Row<V> = Row(key: Bytes, value: V)

  ghost predicate KeysAscending<V>(rows: seq<Row<V>>) {
    forall i, j :: 0 <= i < j < |rows| ==> Less(rows[i].key, rows[j].key)
  }

  function Within<V>(lo: Bytes, hi: Bytes): Row<V> -> bool {
    (r: Row<V>) => InRange(r.key, lo, hi)
  }

  function GetRange<V>(rows: seq<Row<V>>, lo: Bytes, hi: Bytes, limit: nat): seq<Row<V>> {
    Take(Filter(rows, Within(lo, hi)), limit)
  }

  ghost function Keys<V>(rows: seq<Row<V>>): set<Bytes> {
    set r | r in rows :: r.key
  }

  function KeyIn<V>(live: set<Bytes>): Row<V> -> bool {
    (r: Row<V>) => r.key in live
  }

  function KeyNotIn<V>(dead: set<Bytes>): Row<V> -> bool {
    (r: Row<V>) => r.key !in dead
  }

  /** What is left of `rows` when only the keys in `live` remain. */
  function Restrict<V>(rows: seq<Row<V>>, live: set<Bytes>): seq<Row<V>> {
    Filter(rows, KeyIn(live))
  }

  function Cleared<V>(rows: seq<Row<V>>, dead: set<Bytes>): seq<Row<V>> {
    Filter(rows, KeyNotIn(dead))
  }

  class Db<V> {
    var rows: seq<Row<V>>

    constructor (rows: seq<Row<V>>)
      ensures this.rows == rows
    {
      this.rows := rows;
    }

    /** Clear `dead` in one transaction; the commit may fail at any time. */
    method Commit(dead: set<Bytes>) returns (ok: bool)
      modifies this
      ensures rows == if ok then Cleared(old(rows), dead) else old(rows)
    {
      ok := *;
      if ok {
        rows := Cleared(rows, dead);
      }
    }
  }

  lemma ClearRestricted<V>(all: seq<Row<V>>, live: set<Bytes>, dead: set<Bytes>)
    ensures Cleared(Restrict(all, live), dead) == Restrict(all, live - dead)
  {
    FilterTwice(all, KeyIn(live), KeyNotIn(dead), KeyIn(live - dead));
  }

  lemma RestrictAll<V>(all: seq<Row<V>>)
    ensures Restrict(all, Keys(all)) == all
  {
    FilterAll(all, KeyIn(Keys(all)));
  }

  lemma {:induction false} FilterAscending<V>(rows: seq<Row<V>>, p: Row<V> -> bool)
    requires KeysAscending(rows)
    ensures KeysAscending(Filter(rows, p))
    decreases |rows|
  {
    if rows != [] {
      var rest := rows[1..];
      assert forall i :: 0 <= i < |rest| ==> rest[i] == rows[i + 1];
      FilterAscending(rest, p);
      var kept := Filter(rest, p);
      forall i | 0 <= i < |kept|
        ensures Less(rows[0].key, kept[i].key)
      {
        FilterMember(rest, p, kept[i]);
        var j :| 0 <= j < |rest| && rest[j] == kept[i];
      }
    }
  }

  /** What one batch of a scan over the live rows holds. */
  ghost predicate IsBatch<V>(all: seq<Row<V>>, live: set<Bytes>, lo: Bytes, hi: Bytes, limit: nat, batch: seq<Row<V>>) {
    && (forall r :: r in batch ==> r in all && r.key in live && InRange(r.key, lo, hi))
    && (forall r :: r in all && r.key in live && InRange(r.key, lo, hi) && r !in batch ==>
          |batch| == limit && (batch != [] ==> Less(batch[|batch| - 1].key, r.key)))
    && (forall r :: r in batch ==> AtMost(r.key, batch[|batch| - 1].key))
  }

  lemma RangeMember<V>(all: seq<Row<V>>, live: set<Bytes>, lo: Bytes, hi: Bytes, r: Row<V>)
    ensures r in Filter(Restrict(all, live), Within(lo, hi)) <==> r in all && r.key in live && InRange(r.key, lo, hi)
  {
    FilterMember(Restrict(all, live), Within(lo, hi), r);
    FilterMember(all, KeyIn(live), r);
  }

  /** The first rows of a sorted read, and everything past them. */
  lemma TakeSorted<V>(found: seq<Row<V>>, limit: nat, j: nat)
    requires KeysAscending(found) && j < |found|
    ensures var batch := Take(found, limit);
            if j < limit then j < |batch| && batch[j] == found[j] && AtMost(found[j].key, batch[|batch| - 1].key)
            else |batch| == limit && (batch != [] ==> Less(batch[|batch| - 1].key, found[j].key))
  {
  }

  lemma BatchOf<V>(all: seq<Row<V>>, live: set<Bytes>, lo: Bytes, hi: Bytes, limit: nat)
    requires KeysAscending(all)
    ensures IsBatch(all, live, lo, hi, limit, GetRange(Restrict(all, live), lo, hi, limit))
  {
    var found := Filter(Restrict(all, live), Within(lo, hi));
    var batch := Take(found, limit);
    FilterAscending(all, KeyIn(live));
    FilterAscending(Restrict(all, live), Within(lo, hi));
    forall r | r in batch
      ensures r in all && r.key in live && InRange(r.key, lo, hi) && AtMost(r.key, batch[|batch| - 1].key)
    {
      var j :| 0 <= j < |batch| && batch[j] == r;
      assert found[j] == r;
      RangeMember(all, live, lo, hi, r);
      TakeSorted(found, limit, j);
    }
    forall r | r in all && r.key in live && InRange(r.key, lo, hi) && r !in batch
      ensures |batch| == limit && (batch != [] ==> Less(batch[|batch| - 1].key, r.key))
    {
      RangeMember(all, live, lo, hi, r);
      var j :| 0 <= j < |found| && found[j] == r;
      TakeSorted(found, limit, j);
    }
  }

  /** A live row of the range below the next start, or any when the batch is short, is in the batch. */
  lemma BatchCovers<V>(all: seq<Row<V>>, live: set<Bytes>, lo: Bytes, hi: Bytes, limit: nat, batch: seq<Row<V>>,
                       r: Row<V>)
    requires IsBatch(all, live, lo, hi, limit, batch) && r in all && r.key in live && InRange(r.key, lo, hi)
    requires |batch| < limit || (batch != [] && Less(r.key, batch[|batch| - 1].key + [0x00]))
    ensures r in batch
  {
    if batch != [] {
      var last := batch[|batch| - 1].key;
      ExclusiveStart(last, r.key);
      NotLess(r.key, last + [0x00]);
    }
  }

  ghost function RangeKeys<V>(all: seq<Row<V>>, lo: Bytes, hi: Bytes): set<Bytes> {
    set k | k in Keys(all) && InRange(k, lo, hi)
  }

  /** Restarting just above the last key of a batch makes progress. */
  lemma NextStart<V>(all: seq<Row<V>>, lo: Bytes, hi: Bytes, last: Row<V>)
    requires last in all && InRange(last.key, lo, hi)
    ensures Less(lo, last.key + [0x00])
    ensures RangeKeys(all, last.key + [0x00], hi) < RangeKeys(all, lo, hi)
  {
    var next := last.key + [0x00];
    ExclusiveStart(last.key, next);
    LessIrreflexive(last.key);
    ExclusiveStart(last.key, last.key);
    AtMostLess(lo, last.key, next);
    forall k | AtMost(next, k)
      ensures AtMost(lo, k)
    {
      AtMostLess(lo, next, k);
    }
    assert last.key in RangeKeys(all, lo, hi);
  }

  ghost predicate Gathers<V(!new)>(batch: seq<Row<V>>, keysOf: Row<V> -> set<Bytes>, dead: set<Bytes>) {
    && (forall k :: k in dead ==> exists r :: r in batch && k in keysOf(r))
    && (forall r, k :: r in batch && k in keysOf(r) ==> k in dead)
  }

  /** Gather the keys each row of a batch asks to clear. */
  method Collect<V(!new)>(batch: seq<Row<V>>, keysOf: Row<V> -> set<Bytes>) returns (dead: set<Bytes>)
    ensures Gathers(batch, keysOf, dead)
  {
    dead := {};
    var n := 0;
    while n < |batch|
      invariant 0 <= n <= |batch|
      invariant Gathers(batch[..n], keysOf, dead)
    {
      dead := dead + keysOf(batch[n]);
      assert batch[..n + 1] == batch[..n] + [batch[n]];
      n := n + 1;
    }
    assert batch[..n] == batch;
  }

  /** Equal keys of one store are one row. */
  lemma SameRow<V>(all: seq<Row<V>>, a: Row<V>, b: Row<V>)
    requires KeysAscending(all) && a in all && b in all && a.key == b.key
    ensures a == b
  {
    var i :| 0 <= i < |all| && all[i] == a;
    var j :| 0 <= j < |all| && all[j] == b;
    LessIrreflexive(a.key);
  }
}
