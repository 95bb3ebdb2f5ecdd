/**
 * The change-data-capture log: versionstamps, paged reads and the site-filtered collection
 * behind replication pulls (crates/pelago-storage/src/cdc.rs,
 * crates/pelago-api/src/replication_service.rs).
 */
module Cdc {
  import opened Common
  import opened ByteOrder
  import opened Encoding

  // ---- versionstamps ----

  type Stamp = b: seq<Byte> | |b| == 10 witness [0, 0, 0, 0, 0, 0, 0, 0, 0, 0]

  const ZERO_STAMP: Stamp := [0, 0, 0, 0, 0, 0, 0, 0, 0, 0]

  predicate AllMax(b: Bytes) {
    forall i :: 0 <= i < |b| ==> b[i] == 0xFF
  }

  /** Big-endian increment with carry; all 0xFF wraps to zero. */
  function Increment(b: Bytes): (r: Bytes)
    ensures |r| == |b|
  {
    if b == [] then []
    else
      var front, last := b[..|b| - 1], b[|b| - 1];
      if last < 0xFF then front + [last + 1] else Increment(front) + [0x00]
  }

  function NextStamp(vs: Stamp): Stamp {
    Increment(vs)
  }

  /** The in-place carry loop. */
  method Next(vs: Stamp) returns (r: Stamp)
    ensures r == NextStamp(vs)
  {
    var result := new Byte[10](i requires 0 <= i < 10 => vs[i]);
    var i := 10;
    assert result[..] == vs && vs[..10] == vs && result[10..] == [];
    assert Increment(vs) + [] == Increment(vs);
    while i > 0
      invariant 0 <= i <= 10
      invariant result[..i] == vs[..i]
      invariant Increment(vs) == Increment(vs[..i]) + result[i..]
    {
      i := i - 1;
      assert vs[..i + 1][..i] == vs[..i];
      assert result[..i] == result[..i + 1][..i];
      if result[i] < 0xFF {
        assert vs[i] == result[..i + 1][i];
        ghost var tail := result[i + 1..];
        result[i] := result[i] + 1;
        assert result[..] == vs[..i] + [vs[i] + 1] + tail;
        return result[..];
      }
      assert vs[i] == result[..i + 1][i];
      ghost var tail := result[i + 1..];
      result[i] := 0x00;
      assert result[i..] == [0x00] + tail;
    }
    assert result[0..] == result[..];
    r := result[..];
  }

  lemma {:induction false} IncrementValue(b: Bytes)
    ensures Value(Increment(b)) == if AllMax(b) then 0 else Value(b) + 1
    ensures AllMax(b) ==> Value(b) + 1 == Bound(|b|)
    decreases |b|
  {
    if b != [] {
      var front, last := b[..|b| - 1], b[|b| - 1];
      IncrementValue(front);
      assert b == front + [last];
      if last < 0xFF {
        assert Increment(b)[..|b| - 1] == front;
      } else {
        assert Increment(b)[..|b| - 1] == Increment(front);
      }
    }
  }

  /** `next` is the immediate successor: nothing lies strictly between. */
  lemma NextIsSuccessor(vs: Stamp, w: Stamp)
    ensures !AllMax(vs) ==> (AtMost(NextStamp(vs), w) <==> Less(vs, w))
    ensures AllMax(vs) ==> AtMost(NextStamp(vs), w) && !Less(vs, w)
  {
    IncrementValue(vs);
    ValueOrder(vs, w);
    ValueOrder(NextStamp(vs), w);
    if AllMax(vs) {
      IncrementValue(w);
      BoundAll(w);
    }
  }

  lemma {:induction false} BoundAll(b: Bytes)
    ensures Value(b) < Bound(|b|)
    decreases |b|
  {
    if b != [] {
      BoundAll(b[..|b| - 1]);
    }
  }

  // ---- the log ----

  datatype PropertyValue =
    | StringProperty(s: string)
    | IntProperty(n: int)
    | FloatProperty(bits: int)
    | BoolProperty(b: bool)
    | TimestampProperty(t: int)
    | BytesProperty(bytes: Bytes)
    | NullProperty

  type Properties = map<string, PropertyValue>

  datatype Operation =
    | NodeCreate(entityType: string, nodeId: string, properties: Properties, homeSite: string)
    | NodeUpdate(entityType: string, nodeId: string, changed: Properties, previous: Properties)
    | NodeDelete(entityType: string, nodeId: string)
    | EdgeCreate(sourceType: string, sourceId: string, targetType: string, targetId: string,
                 edgeType: string, edgeId: string, edgeProperties: Properties)
    | EdgeDelete(sourceType: string, sourceId: string, targetType: string, targetId: string, edgeType: string)
    | SchemaRegister(entityType: string, version: nat)
    | OwnershipTransfer(entityType: string, nodeId: string, previousSite: string, currentSite: string)

  datatype Entry = Entry(site: string, timestamp: int, batchId: Option<string>, operations: seq<Operation>)

  datatype Record = Record(stamp: Stamp, entry: Entry)

  /** Records in commit order. */
  ghost predicate Ordered(log: seq<Record>) {
    forall i, j :: 0 <= i < j < |log| ==> Less(log[i].stamp, log[j].stamp)
  }

  /** Stamps the reader's range end `prefix ++ 0xFF` does not cut off. */
  ghost predicate Readable(log: seq<Record>) {
    forall i :: 0 <= i < |log| ==> log[i].stamp[0] < 0xFF
  }

  predicate Visible(vs: Stamp, after: Option<Stamp>) {
    (after.Some? ==> AtMost(NextStamp(after.value), vs)) && vs[0] < 0xFF
  }

  /** On keys: the read range of `read_cdc_entries` holds exactly the visible stamps. */
  lemma ReadRange(prefix: Bytes, vs: Stamp, after: Option<Stamp>)
    ensures InRange(prefix + vs, if after.Some? then prefix + NextStamp(after.value) else prefix, prefix + [0xFF])
            <==> Visible(vs, after)
  {
    LessCommonPrefix(prefix, vs, [0xFF]);
    assert !Less(vs[1..], []);
    if after.Some? {
      LessCommonPrefix(prefix, NextStamp(after.value), vs);
    } else {
      LessCommonPrefix(prefix, [], vs);
      assert prefix + [] == prefix;
    }
  }

  function IsVisible(after: Option<Stamp>): Record -> bool {
    (r: Record) => Visible(r.stamp, after)
  }

  function IsFrom(site: string): Record -> bool {
    (r: Record) => r.entry.site == site
  }

  function VisibleRecords(log: seq<Record>, after: Option<Stamp>): seq<Record> {
    Filter(log, IsVisible(after))
  }

  function ReadCdc(log: seq<Record>, after: Option<Stamp>, limit: nat): seq<Record> {
    Take(VisibleRecords(log, after), limit)
  }

  /** Reading after a record of the log resumes right behind it. */
  lemma VisibleAfter(log: seq<Record>, n: nat)
    requires Ordered(log) && Readable(log) && n < |log|
    ensures VisibleRecords(log, Some(log[n].stamp)) == log[n + 1..]
  {
    var p := IsVisible(Some(log[n].stamp));
    var head, tail := log[..n + 1], log[n + 1..];
    assert log == head + tail;
    FilterAppend(head, tail, p);
    NotAllMax(log[n].stamp);
    forall i | 0 <= i < |head|
      ensures !p(head[i])
    {
      NextIsSuccessor(log[n].stamp, head[i].stamp);
      LessTrichotomy(head[i].stamp, log[n].stamp);
    }
    forall i | 0 <= i < |tail|
      ensures p(tail[i])
    {
      NextIsSuccessor(log[n].stamp, tail[i].stamp);
      assert tail[i] == log[n + 1 + i];
    }
    FilterNone(head, p);
    FilterAll(tail, p);
  }

  lemma NotAllMax(vs: Stamp)
    requires vs[0] < 0xFF
    ensures !AllMax(vs)
  {
  }

  /** What is visible after any position is a suffix of the log. */
  lemma {:induction false} VisibleSuffix(log: seq<Record>, after: Option<Stamp>) returns (n: nat)
    requires Ordered(log) && Readable(log)
    ensures n <= |log| && VisibleRecords(log, after) == log[n..]
    ensures forall i :: 0 <= i < n ==> !Visible(log[i].stamp, after)
    ensures forall i :: n <= i < |log| ==> Visible(log[i].stamp, after)
    decreases |log|
  {
    if log == [] {
      n := 0;
    } else if Visible(log[0].stamp, after) {
      n := 0;
      forall i | 0 <= i < |log|
        ensures Visible(log[i].stamp, after)
      {
        if i > 0 && after.Some? {
          AtMostLess(NextStamp(after.value), log[0].stamp, log[i].stamp);
        }
      }
      FilterAll(log, IsVisible(after));
    } else {
      var rest := log[1..];
      assert forall i :: 0 <= i < |rest| ==> rest[i] == log[i + 1];
      var m := VisibleSuffix(rest, after);
      n := m + 1;
      assert log[n..] == rest[m..];
      forall i | n <= i < |log|
        ensures Visible(log[i].stamp, after)
      {
        assert log[i] == rest[i - 1];
      }
      forall i | 0 <= i < n
        ensures !Visible(log[i].stamp, after)
      {
        if i > 0 {
          assert log[i] == rest[i - 1];
        }
      }
    }
  }

  // ---- site-filtered collection ----

  function FromSite(records: seq<Record>, site: string): seq<Record> {
    Filter(records, IsFrom(site))
  }

  /** The reference: the first `limit` records of one site after the cursor. */
  function SiteRecords(log: seq<Record>, after: Option<Stamp>, site: string, limit: nat): seq<Record> {
    var all := FromSite(VisibleRecords(log, after), site);
    // A limit of zero is never reached by the push-then-compare loop.
    if limit == 0 then all else Take(all, limit)
  }

  function Clamp(n: nat, lo: nat, hi: nat): nat
    requires lo <= hi
  {
    if n < lo then lo else if n > hi then hi else n
  }

  /** A page's matching records were pushed until the limit was reached, if it was. */
  ghost predicate Pushed(page: seq<Record>, site: string, limit: nat, was: seq<Record>, now: seq<Record>, full: bool) {
    if full then limit > 0 && |now| == limit && now == Take(was + FromSite(page, site), limit)
    else now == was + FromSite(page, site) && (limit == 0 || |now| < limit)
  }

  method PushMatching(page: seq<Record>, site: string, limit: nat, filtered0: seq<Record>)
    returns (filtered: seq<Record>, full: bool)
    requires limit == 0 || |filtered0| < limit
    ensures Pushed(page, site, limit, filtered0, filtered, full)
  {
    filtered := filtered0;
    var i := 0;
    while i < |page|
      invariant 0 <= i <= |page|
      invariant filtered == filtered0 + FromSite(page[..i], site)
      invariant limit == 0 || |filtered| < limit
    {
      var p := IsFrom(site);
      FilterAppend(page[..i], [page[i]], p);
      assert page[..i + 1] == page[..i] + [page[i]];
      if page[i].entry.site == site {
        filtered := filtered + [page[i]];
        if |filtered| == limit {
          FilterAppend(page[..i + 1], page[i + 1..], p);
          assert page == page[..i + 1] + page[i + 1..];
          assert filtered0 + FromSite(page, site) == filtered + FromSite(page[i + 1..], site);
          return filtered, true;
        }
      }
      i := i + 1;
    }
    assert page[..i] == page;
    full := false;
  }

  lemma FromSiteSplit(log: seq<Record>, lo: nat, mid: nat, hi: nat, site: string)
    requires lo <= mid <= hi <= |log|
    ensures FromSite(log[lo..hi], site) == FromSite(log[lo..mid], site) + FromSite(log[mid..hi], site)
  {
    assert log[lo..hi] == log[lo..mid] + log[mid..hi];
    FilterAppend(log[lo..mid], log[mid..hi], IsFrom(site));
  }

  lemma ReadSlice(log: seq<Record>, cursor: Option<Stamp>, n: nat, pageSize: nat)
    requires n <= |log| && VisibleRecords(log, cursor) == log[n..]
    ensures ReadCdc(log, cursor, pageSize) == log[n..Min(n + pageSize, |log|)]
  {
  }

  lemma TakeEnough<T>(a: seq<T>, b: seq<T>, limit: nat)
    requires |a| >= limit
    ensures Take(a + b, limit) == Take(a, limit)
  {
  }

  /** Where the filtered loop stands after the records up to position `n`. */
  ghost predicate Collected(log: seq<Record>, first: nat, n: nat, site: string, limit: nat, filtered: seq<Record>) {
    first <= n <= |log| && filtered == FromSite(log[first..n], site) && (limit == 0 || |filtered| < limit)
  }

  lemma PageCollected(log: seq<Record>, first: nat, n: nat, m: nat, site: string, limit: nat,
                      was: seq<Record>, now: seq<Record>, full: bool)
    requires Collected(log, first, n, site, limit, was) && n <= m <= |log|
    requires Pushed(log[n..m], site, limit, was, now, full)
    ensures !full ==> Collected(log, first, m, site, limit, now)
    ensures full ==> limit > 0 && now == Take(FromSite(log[first..|log|], site), limit)
  {
    FromSiteSplit(log, first, n, m, site);
    if full {
      FromSiteSplit(log, first, m, |log|, site);
      TakeEnough(FromSite(log[first..m], site), FromSite(log[m..|log|], site), limit);
    }
  }

  ghost predicate StartsAt(log: seq<Record>, cursor: Option<Stamp>, n: nat) {
    n <= |log| && VisibleRecords(log, cursor) == log[n..]
  }

  /** A page read at position `n` ends at `m`, and its last stamp is the cursor for `m`. */
  lemma PageEnds(log: seq<Record>, cursor: Option<Stamp>, n: nat, pageSize: nat, page: seq<Record>) returns (m: nat)
    requires Ordered(log) && Readable(log) && StartsAt(log, cursor, n) && page == ReadCdc(log, cursor, pageSize)
    ensures n <= m <= |log| && page == log[n..m] && (|page| < pageSize ==> m == |log|)
    ensures page != [] ==> StartsAt(log, Some(page[|page| - 1].stamp), m)
  {
    ReadSlice(log, cursor, n, pageSize);
    m := Min(n + pageSize, |log|);
    if page != [] {
      VisibleAfter(log, m - 1);
    }
  }

  /** The filtered loop, from the position `first` where the visible part of the log starts. */
  method CollectFromSite(log: seq<Record>, after: Option<Stamp>, limit: nat, site: string, ghost first: nat)
    returns (filtered: seq<Record>)
    requires Ordered(log) && Readable(log)
    requires StartsAt(log, after, first)
    ensures filtered == if limit == 0 then FromSite(log[first..|log|], site)
                        else Take(FromSite(log[first..|log|], site), limit)
  {
    var pageSize := Clamp(limit, 1, 1000);
    filtered := [];
    var cursor := after;
    ghost var n := first;
    while true
      invariant Collected(log, first, n, site, limit, filtered)
      invariant StartsAt(log, cursor, n)
      decreases |log| - n
    {
      var page := ReadCdc(log, cursor, pageSize);
      ghost var m := PageEnds(log, cursor, n, pageSize, page);
      if page == [] {
        break;
      }
      ghost var was := filtered;
      var full;
      filtered, full := PushMatching(page, site, limit, filtered);
      PageCollected(log, first, n, m, site, limit, was, filtered, full);
      if full {
        return;
      }
      n := m;
      if |page| < pageSize {
        break;
      }
      cursor := Some(page[|page| - 1].stamp);
    }
  }

  method CollectCdcEntries(log: seq<Record>, after: Option<Stamp>, limit: nat, source: Option<string>)
    returns (out: seq<Record>)
    requires Ordered(log) && Readable(log)
    ensures out == if source.None? then ReadCdc(log, after, limit) else SiteRecords(log, after, source.value, limit)
  {
    if source.None? {
      return ReadCdc(log, after, limit);
    }
    ghost var first := VisibleSuffix(log, after);
    assert log[first..|log|] == log[first..];
    out := CollectFromSite(log, after, limit, source.value, first);
  }

  // ---- what the collection means ----

  /**
   * For a cursor other than all 0xFF the collection is exactly the first `limit` records of
   * the site strictly after the cursor.
   */
  lemma CollectMeans(log: seq<Record>, vs: Stamp, site: string, limit: nat, wanted: Record -> bool)
    requires Ordered(log) && Readable(log) && limit > 0
    requires !AllMax(vs)
    requires forall r :: wanted(r) <==> Less(vs, r.stamp) && r.entry.site == site
    ensures SiteRecords(log, Some(vs), site, limit) == Take(Filter(log, wanted), limit)
  {
    forall i | 0 <= i < |log|
      ensures wanted(log[i]) == (IsVisible(Some(vs))(log[i]) && IsFrom(site)(log[i]))
    {
      NextIsSuccessor(vs, log[i].stamp);
    }
    FilterTwice(log, IsVisible(Some(vs)), IsFrom(site), wanted);
  }

  /** After the all-0xFF cursor the successor wraps and the whole log is read again. */
  lemma MaxCursorRereads(log: seq<Record>, vs: Stamp)
    requires Readable(log) && AllMax(vs)
    ensures VisibleRecords(log, Some(vs)) == log
    ensures (forall r :: r in VisibleRecords(log, Some(vs)) ==> Less(vs, r.stamp)) <==> log == []
  {
    forall i | 0 <= i < |log|
      ensures Visible(log[i].stamp, Some(vs)) && !Less(vs, log[i].stamp)
    {
      NextIsSuccessor(vs, log[i].stamp);
    }
    FilterAll(log, IsVisible(Some(vs)));
    HasMember(log);
  }
}
