/**
 * Keyset paging of the plan path (`execute_with_options` in
 * crates/pelago-query/src/executor.rs): scan a window, apply the residual filter, keep one
 * look-ahead row, and hand out the look-ahead row's key as the cursor.
 */
module PlanPaging {
  import opened Common
  import opened ByteOrder
  import opened Store
  import opened IndexScan

  datatype Page = Page(rows: seq<IndexRow>, hasMore: bool, cursor: Option<Bytes>)

  /** The rows a scan resumed from `cursor` still sees. */
  function After(rows: seq<IndexRow>, cursor: Option<Bytes>): seq<IndexRow> {
    if cursor.None? then rows else Filter(rows, (r: IndexRow) => AtMost(cursor.value + [0x00], r.key))
  }

  /** How many candidates one page may scan. */
  function Window(limit: nat, maxLimit: nat): nat {
    Max(1, Min(4 * (limit + 1), maxLimit))
  }

  function PlanPage(rows: seq<IndexRow>, cursor: Option<Bytes>, limit: nat, maxLimit: nat,
                    residual: IndexRow -> bool): Page {
    var scan := Take(After(rows, cursor), Window(limit, maxLimit));
    var taken := Take(Filter(scan, residual), limit + 1);
    var hasMore := |taken| > limit;
    Page(Take(taken, limit), hasMore, if hasMore && limit > 0 then Some(taken[limit].key) else None)
  }

  method ExecutePlanPage(rows: seq<IndexRow>, cursor: Option<Bytes>, limit: nat, maxLimit: nat,
                         residual: IndexRow -> bool)
    returns (page: Page)
    ensures page == PlanPage(rows, cursor, limit, maxLimit, residual)
  {
    var candidates := Take(After(rows, cursor), Window(limit, maxLimit));
    var results: seq<IndexRow> := [];
    var lastCursor: Option<Bytes> := None;
    var i := 0;
    assert candidates[..0] == [];
    while i < |candidates| && |results| < limit + 1
      invariant 0 <= i <= |candidates|
      invariant results == Filter(candidates[..i], residual)
      invariant |results| <= limit + 1
      invariant lastCursor == if results == [] then None else Some(results[|results| - 1].key)
    {
      FilterAppend(candidates[..i], [candidates[i]], residual);
      assert candidates[..i + 1] == candidates[..i] + [candidates[i]];
      if residual(candidates[i]) {
        lastCursor := Some(candidates[i].key);
        results := results + [candidates[i]];
      }
      i := i + 1;
    }
    FilterAppend(candidates[..i], candidates[i..], residual);
    assert candidates == candidates[..i] + candidates[i..];
    assert i == |candidates| ==> candidates[i..] == [];
    assert Take(Filter(candidates, residual), limit + 1) == results;
    var hasMore := |results| > limit;
    var kept := Take(results, limit);
    page := Page(kept, hasMore, if hasMore && kept != [] then lastCursor else None);
  }

  // ---- following cursors ----

  lemma AfterShrinks(rows: seq<IndexRow>, cursor: Option<Bytes>, limit: nat, maxLimit: nat, residual: IndexRow -> bool)
    requires PlanPage(rows, cursor, limit, maxLimit, residual).cursor.Some?
    ensures |After(rows, PlanPage(rows, cursor, limit, maxLimit, residual).cursor)| < |rows|
  {
    var page := PlanPage(rows, cursor, limit, maxLimit, residual);
    var scan := Take(After(rows, cursor), Window(limit, maxLimit));
    var taken := Take(Filter(scan, residual), limit + 1);
    var last := taken[limit];
    assert last in Filter(scan, residual);
    FilterMember(scan, residual, last);
    assert last in After(rows, cursor);
    if cursor.Some? {
      FilterMember(rows, (r: IndexRow) => AtMost(cursor.value + [0x00], r.key), last);
    }
    ExclusiveStart(last.key, last.key);
    LessIrreflexive(last.key);
    FilterDrops(rows, (r: IndexRow) => AtMost(last.key + [0x00], r.key), last);
  }

  lemma {:induction false} FilterDrops<T>(s: seq<T>, p: T -> bool, x: T)
    requires x in s && !p(x)
    ensures |Filter(s, p)| < |s|
    decreases |s|
  {
    FilterLength(s[1..], p);
    if p(s[0]) {
      assert s == [s[0]] + s[1..];
      FilterDrops(s[1..], p, x);
    }
  }

  /** Everything a client receives by following cursors, for rows in ascending key order. */
  function AllPages(rows: seq<IndexRow>, limit: nat, maxLimit: nat, residual: IndexRow -> bool): seq<IndexRow>
    decreases |rows|
  {
    var page := PlanPage(rows, None, limit, maxLimit, residual);
    if page.cursor.None? then page.rows
    else
      AfterShrinks(rows, None, limit, maxLimit, residual);
      page.rows + AllPages(After(rows, page.cursor), limit, maxLimit, residual)
  }

  /** Resuming at a cursor only sees what is after it, so re-filtering is idempotent. */
  lemma {:induction false} AfterSuffix(rows: seq<IndexRow>, n: nat)
    requires KeysAscending(rows) && n < |rows|
    ensures After(rows, Some(rows[n].key)) == rows[n + 1..]
  {
    var p := (r: IndexRow) => AtMost(rows[n].key + [0x00], r.key);
    var head, tail := rows[..n + 1], rows[n + 1..];
    assert rows == head + tail;
    FilterAppend(head, tail, p);
    forall i | 0 <= i < |head|
      ensures !p(head[i])
    {
      ExclusiveStart(rows[n].key, head[i].key);
      LessTrichotomy(head[i].key, rows[n].key);
    }
    forall i | 0 <= i < |tail|
      ensures p(tail[i])
    {
      ExclusiveStart(rows[n].key, tail[i].key);
    }
    FilterNone(head, p);
    FilterAll(tail, p);
  }

  /** The row of a match, with the matches before and behind it. */
  lemma {:induction false} MatchAt(rows: seq<IndexRow>, p: IndexRow -> bool, k: nat) returns (n: nat)
    requires k < |Filter(rows, p)|
    ensures n < |rows| && rows[n] == Filter(rows, p)[k]
    ensures Filter(rows[..n], p) == Filter(rows, p)[..k] && Filter(rows[n + 1..], p) == Filter(rows, p)[k + 1..]
    decreases |rows|
  {
    if p(rows[0]) && k == 0 {
      n := 0;
      assert rows[..0] == [];
    } else {
      var k' := if p(rows[0]) then k - 1 else k;
      var m := MatchAt(rows[1..], p, k');
      n := m + 1;
      assert rows[..n][1..] == rows[1..][..m];
      assert rows[n + 1..] == rows[1..][m + 1..];
    }
  }

  lemma PageMembers(rows: seq<IndexRow>, limit: nat, maxLimit: nat, residual: IndexRow -> bool)
    requires KeysAscending(rows)
    ensures var page := PlanPage(rows, None, limit, maxLimit, residual);
            KeysAscending(page.rows) && forall r :: r in page.rows ==> r in rows && residual(r)
  {
    var scan := Take(rows, Window(limit, maxLimit));
    FilterAscending(scan, residual);
    forall r | r in PlanPage(rows, None, limit, maxLimit, residual).rows
      ensures r in rows && residual(r)
    {
      FilterMember(scan, residual, r);
    }
  }

  /** A page with a cursor ends below row `n`, and the next page starts after row `n`. */
  lemma PageSplit(rows: seq<IndexRow>, limit: nat, maxLimit: nat, residual: IndexRow -> bool) returns (n: nat)
    requires KeysAscending(rows)
    requires PlanPage(rows, None, limit, maxLimit, residual).cursor.Some?
    ensures var page := PlanPage(rows, None, limit, maxLimit, residual);
            && n < |rows|
            && After(rows, page.cursor) == rows[n + 1..]
            && forall i :: 0 <= i < |page.rows| ==> Less(page.rows[i].key, rows[n].key)
  {
    var scan := Take(rows, Window(limit, maxLimit));
    var found := Filter(scan, residual);
    FilterAscending(scan, residual);
    n := MatchAt(scan, residual, limit);
    AfterSuffix(rows, n);
  }

  /**
   * Following cursors returns rows in strictly increasing key order, hence none twice, and
   * every one matches the residual filter.
   */
  lemma {:induction false} PagesAscending(rows: seq<IndexRow>, limit: nat, maxLimit: nat, residual: IndexRow -> bool)
    requires KeysAscending(rows)
    ensures KeysAscending(AllPages(rows, limit, maxLimit, residual))
    ensures forall r :: r in AllPages(rows, limit, maxLimit, residual) ==> r in rows && residual(r)
    decreases |rows|
  {
    var page := PlanPage(rows, None, limit, maxLimit, residual);
    PageMembers(rows, limit, maxLimit, residual);
    if page.cursor.Some? {
      var n := PageSplit(rows, limit, maxLimit, residual);
      AfterShrinks(rows, None, limit, maxLimit, residual);
      var rest := rows[n + 1..];
      PagesAscending(rest, limit, maxLimit, residual);
      JoinAscending(page.rows, AllPages(rest, limit, maxLimit, residual), rows, n);
    }
  }

  lemma JoinAscending(a: seq<IndexRow>, b: seq<IndexRow>, rows: seq<IndexRow>, n: nat)
    requires KeysAscending(a) && KeysAscending(b) && KeysAscending(rows) && n < |rows|
    requires forall i :: 0 <= i < |a| ==> Less(a[i].key, rows[n].key)
    requires forall r :: r in b ==> r in rows[n + 1..]
    ensures KeysAscending(a + b)
  {
    forall i, j | 0 <= i < |a| && 0 <= j < |b|
      ensures Less(a[i].key, b[j].key)
    {
      assert b[j] in b;
      var m :| n + 1 <= m < |rows| && rows[m] == b[j];
      LessTransitive(a[i].key, rows[n].key, b[j].key);
    }
  }

  const NoResidual: IndexRow -> bool := r => true

  /** `limit` rows, then one dropped, and so on while more than `limit` rows are left. */
  function SkipLookAhead<T>(s: seq<T>, limit: nat): seq<T>
    decreases |s|
  {
    if |s| <= limit then s else s[..limit] + SkipLookAhead(s[limit + 1..], limit)
  }

  /** The matches one page's scan window holds. */
  function InWindow(rows: seq<IndexRow>, limit: nat, maxLimit: nat, residual: IndexRow -> bool): seq<IndexRow> {
    Filter(Take(rows, Window(limit, maxLimit)), residual)
  }

  lemma WindowIsPrefix(rows: seq<IndexRow>, limit: nat, maxLimit: nat, residual: IndexRow -> bool)
    ensures InWindow(rows, limit, maxLimit, residual) <= Filter(rows, residual)
  {
    var n := |Take(rows, Window(limit, maxLimit))|;
    assert rows == rows[..n] + rows[n..];
    FilterAppend(rows[..n], rows[n..], residual);
  }

  /**
   * The first page is the first `limit` matches of the window, and its cursor the key of the
   * next match of the window, if there is one.
   */
  lemma FirstPage(rows: seq<IndexRow>, limit: nat, maxLimit: nat, residual: IndexRow -> bool)
    ensures var page := PlanPage(rows, None, limit, maxLimit, residual);
            var matches := Filter(rows, residual);
            if |InWindow(rows, limit, maxLimit, residual)| <= limit
            then page.rows == InWindow(rows, limit, maxLimit, residual) && page.cursor == None && !page.hasMore
            else |matches| > limit && page.rows == matches[..limit] && page.hasMore
                 && page.cursor == if limit > 0 then Some(matches[limit].key) else None
  {
    WindowIsPrefix(rows, limit, maxLimit, residual);
  }

  /** Of distinct rows, one is among the first `n` matches exactly if it matches and fewer than `n` before it do. */
  lemma AmongFirst(rows: seq<IndexRow>, residual: IndexRow -> bool, k: nat, n: nat)
    requires KeysAscending(rows) && k < |rows|
    ensures rows[k] in Take(Filter(rows, residual), n) <==> residual(rows[k]) && |Filter(rows[..k], residual)| < n
  {
    var head, x, tail := rows[..k], rows[k], rows[k + 1..];
    assert rows == head + ([x] + tail);
    FilterAppend(head, [x] + tail, residual);
    FilterAppend([x], tail, residual);
    LessIrreflexive(x.key);
    FilterMember(head, residual, x);
    FilterMember(tail, residual, x);
    var before, all := Filter(head, residual), Filter(rows, residual);
    if residual(x) {
      assert all == before + ([x] + Filter(tail, residual));
      assert all[|before|] == x && all[..|before|] == before;
      if |before| < n {
        assert Take(all, n)[|before|] == x;
      } else {
        assert Take(before, n) == Take(all, n);
      }
    } else {
      FilterMember(rows, residual, x);
    }
  }

  /**
   * By position: the first page returns a row exactly if the filter holds of it, it is among the
   * first four times `limit + 1` rows, or the maximum limit if that is less, and fewer than `limit`
   * rows before it match.
   */
  lemma ReturnedAt(rows: seq<IndexRow>, limit: nat, maxLimit: nat, residual: IndexRow -> bool, k: nat)
    requires KeysAscending(rows) && k < |rows|
    ensures rows[k] in PlanPage(rows, None, limit, maxLimit, residual).rows <==>
            && residual(rows[k]) && |Filter(rows[..k], residual)| < limit
            && (k == 0 || (k < 4 * limit + 4 && k < maxLimit))
  {
    var w := Window(limit, maxLimit);
    var scan := Take(rows, w);
    var page := PlanPage(rows, None, limit, maxLimit, residual);
    assert page.rows == Take(Filter(scan, residual), limit);
    if k < w {
      assert scan[k] == rows[k] && scan[..k] == rows[..k];
      AmongFirst(scan, residual, k, limit);
    } else {
      LessIrreflexive(rows[k].key);
      assert rows[k] !in scan;
      FilterMember(scan, residual, rows[k]);
    }
  }

  lemma AllPagesUnfold(rows: seq<IndexRow>, limit: nat, maxLimit: nat, residual: IndexRow -> bool, page: Page,
                       rest: seq<IndexRow>)
    requires page == PlanPage(rows, None, limit, maxLimit, residual)
    requires page.cursor.Some? && rest == After(rows, page.cursor)
    ensures AllPages(rows, limit, maxLimit, residual) == page.rows + AllPages(rest, limit, maxLimit, residual)
    ensures |rest| < |rows|
  {
    AfterShrinks(rows, None, limit, maxLimit, residual);
  }

  /** Resuming at the key of a match leaves exactly the matches behind it. */
  lemma AfterMatch(rows: seq<IndexRow>, residual: IndexRow -> bool, k: nat)
    requires KeysAscending(rows) && k < |Filter(rows, residual)|
    ensures var matches := Filter(rows, residual);
            var rest := After(rows, Some(matches[k].key));
            KeysAscending(rest) && |rest| < |rows| && Filter(rest, residual) == matches[k + 1..]
  {
    var n := MatchAt(rows, residual, k);
    AfterSuffix(rows, n);
  }

  lemma SkipExtends<T>(a: seq<T>, b: seq<T>, s: seq<T>, limit: nat)
    requires |s| > limit && a == s[..limit] && b <= SkipLookAhead(s[limit + 1..], limit)
    ensures a + b <= SkipLookAhead(s, limit)
  {
  }

  lemma ShortFits<T>(a: seq<T>, s: seq<T>, limit: nat)
    requires a <= s && |a| <= limit
    ensures a <= SkipLookAhead(s, limit)
  {
    if |s| > limit {
      assert a == s[..limit][..|a|];
    }
  }

  /**
   * The cursor is the look-ahead row itself, so the pages return the matches in order without
   * the look-ahead row of each page, up to the first page whose window runs short.
   */
  lemma {:induction false} PagesSkipLookAhead(rows: seq<IndexRow>, limit: nat, maxLimit: nat,
                                              residual: IndexRow -> bool)
    requires KeysAscending(rows)
    ensures AllPages(rows, limit, maxLimit, residual) <= SkipLookAhead(Filter(rows, residual), limit)
    decreases |rows|
  {
    var page, matches := PlanPage(rows, None, limit, maxLimit, residual), Filter(rows, residual);
    FirstPage(rows, limit, maxLimit, residual);
    WindowIsPrefix(rows, limit, maxLimit, residual);
    if page.cursor.Some? {
      var rest := After(rows, page.cursor);
      AfterMatch(rows, residual, limit);
      AllPagesUnfold(rows, limit, maxLimit, residual, page, rest);
      PagesSkipLookAhead(rest, limit, maxLimit, residual);
      SkipExtends(page.rows, AllPages(rest, limit, maxLimit, residual), matches, limit);
    } else {
      ShortFits(page.rows, matches, limit);
    }
  }

  lemma FirstUnfiltered(rows: seq<IndexRow>, limit: nat, maxLimit: nat)
    requires limit < maxLimit
    ensures var page := PlanPage(rows, None, limit, maxLimit, NoResidual);
            if |rows| <= limit then page.rows == rows && page.cursor == None
            else page.rows == rows[..limit] && page.cursor == if limit > 0 then Some(rows[limit].key) else None
  {
    FirstPage(rows, limit, maxLimit, NoResidual);
    FilterAll(rows, NoResidual);
    FilterAll(Take(rows, Window(limit, maxLimit)), NoResidual);
  }

  /** Without a residual filter no window runs short below the maximum limit. */
  lemma {:induction false} PagesSkipUnfiltered(rows: seq<IndexRow>, limit: nat, maxLimit: nat)
    requires KeysAscending(rows) && limit < maxLimit
    ensures AllPages(rows, limit, maxLimit, NoResidual) == SkipLookAhead(rows, limit)
    decreases |rows|
  {
    var page := PlanPage(rows, None, limit, maxLimit, NoResidual);
    FirstUnfiltered(rows, limit, maxLimit);
    if page.cursor.Some? {
      AfterSuffix(rows, limit);
      AllPagesUnfold(rows, limit, maxLimit, NoResidual, page, rows[limit + 1..]);
      PagesSkipUnfiltered(rows[limit + 1..], limit, maxLimit);
    } else if limit == 0 {
      SkipAll(rows);
    }
  }

  lemma {:induction false} SkipAll<T>(s: seq<T>)
    ensures SkipLookAhead(s, 0) == []
    decreases |s|
  {
    if s != [] {
      SkipAll(s[1..]);
    }
  }

  lemma {:induction false} SkipLookAheadLength<T>(s: seq<T>, limit: nat)
    ensures |SkipLookAhead(s, limit)| <= |s|
    ensures |SkipLookAhead(s, limit)| == |s| <==> |s| <= limit
    decreases |s|
  {
    if |s| > limit {
      SkipLookAheadLength(s[limit + 1..], limit);
    }
  }

  /** Paging misses no match exactly when all of them fit on the first page and in its window. */
  lemma PagesGapFree(rows: seq<IndexRow>, limit: nat, maxLimit: nat, residual: IndexRow -> bool)
    requires KeysAscending(rows)
    ensures AllPages(rows, limit, maxLimit, residual) == Filter(rows, residual) <==>
            |Filter(rows, residual)| <= limit && |InWindow(rows, limit, maxLimit, residual)| == |Filter(rows, residual)|
  {
    PagesSkipLookAhead(rows, limit, maxLimit, residual);
    SkipLookAheadLength(Filter(rows, residual), limit);
    WindowIsPrefix(rows, limit, maxLimit, residual);
    FirstPage(rows, limit, maxLimit, residual);
  }

  /**
   * A page whose scan window holds at most `limit` matches is the last one: matches beyond
   * the window are never returned. Asking for the maximum limit always ends this way.
   */
  lemma PagesStopAtWindow(rows: seq<IndexRow>, limit: nat, maxLimit: nat, residual: IndexRow -> bool)
    requires |InWindow(rows, limit, maxLimit, residual)| <= limit || (0 < maxLimit <= limit)
    ensures AllPages(rows, limit, maxLimit, residual) == InWindow(rows, limit, maxLimit, residual)
  {
    FilterLength(Take(rows, Window(limit, maxLimit)), residual);
  }
}
