/** Pages of the term path, and when they partition the answer (crates/pelago-query/src/executor.rs). */
module TermPaging {
  import opened Common
  import opened ByteOrder
  import opened TermRewrite
  import opened TermQuery

  datatype Page = Page(nodes: seq<Bytes>, hasMore: bool, cursor: Option<Bytes>)

  function PageOf(nodes: seq<Bytes>, limit: nat): Page {
    var hasMore := |nodes| > limit;
    var kept := Take(nodes, limit);
    Page(kept, hasMore, if hasMore && kept != [] then Some(kept[|kept| - 1]) else None)
  }

  /** The nodes of one page and the look-ahead node; ids that do not resolve are skipped. */
  function NodesOf(ids: seq<Bytes>, resolves: Bytes -> bool, limit: nat, cursor: Option<Bytes>): seq<Bytes> {
    Filter(Take(AfterId(ids, cursor), limit + 1), resolves)
  }

  function PageFrom(ids: seq<Bytes>, resolves: Bytes -> bool, limit: nat, cursor: Option<Bytes>): Page {
    PageOf(NodesOf(ids, resolves, limit, cursor), limit)
  }

  function HardCap(maxLimit: nat): nat {
    Max(maxLimit * 20, 5000)
  }

  function ReadOf(limit: nat, maxLimit: nat, cursor: Option<Bytes>): Read {
    Read(cursor, Min(limit, maxLimit) + 1, HardCap(maxLimit))
  }

  /** Skip ids up to the cursor and stop one past the page. */
  method Window(ids: seq<Bytes>, cursor: Option<Bytes>, fetch: nat) returns (ordered: seq<Bytes>)
    requires fetch > 0
    ensures ordered == Take(AfterId(ids, cursor), fetch)
  {
    ordered := [];
    var i := 0;
    while i < |ids|
      invariant 0 <= i <= |ids| && |ordered| < fetch
      invariant ordered == AfterId(ids[..i], cursor)
    {
      assert ids[..i + 1] == ids[..i] + [ids[i]];
      FilterAppend(ids[..i], [ids[i]], IsAfter(cursor));
      if cursor.Some? && !Less(cursor.value, ids[i]) {
        i := i + 1;
        continue;
      }
      ordered := ordered + [ids[i]];
      i := i + 1;
      if |ordered| >= fetch {
        FilterAppend(ids[..i], ids[i..], IsAfter(cursor));
        assert ids == ids[..i] + ids[i..];
        return;
      }
    }
    assert ids[..i] == ids;
  }

  /** What the capped union may hand to the page. */
  ghost predicate Found(idx: TermIndex, groups: seq<seq<Term>>, r: Read, ids: seq<Bytes>) {
    var whole := UnionOf(groups, Fetcher(idx, r));
    Ascending(ids) && SetOf(ids) <= whole && (|whole| <= r.cap ==> SetOf(ids) == whole)
  }

  ghost predicate Answers(idx: TermIndex, groups: seq<seq<Term>>, resolves: Bytes -> bool, limit: nat, maxLimit: nat,
                          cursor: Option<Bytes>, page: Page) {
    exists ids :: Found(idx, groups, ReadOf(limit, maxLimit, cursor), ids)
                  && page == PageFrom(ids, resolves, Min(limit, maxLimit), cursor)
  }

  method ExecuteTermExpression(idx: TermIndex, groups: seq<seq<Term>>, resolves: Bytes -> bool, limit: nat,
                               maxLimit: nat,
                               cursor: Option<Bytes>)
    returns (page: Page)
    ensures Answers(idx, groups, resolves, limit, maxLimit, cursor, page)
  {
    var effective := Min(limit, maxLimit);
    var found := ExecuteTermGroups(idx, groups, ReadOf(limit, maxLimit, cursor));
    assert Found(idx, groups, ReadOf(limit, maxLimit, cursor), found);
    var ordered := Window(found, cursor, effective + 1);
    page := Truncate(Filter(ordered, resolves), effective);
    assert page == PageFrom(found, resolves, effective, cursor);
  }

  method Truncate(found: seq<Bytes>, limit: nat) returns (page: Page)
    ensures page == PageOf(found, limit)
  {
    var nodes := found;
    var hasMore := |nodes| > limit;
    if hasMore {
      nodes := nodes[..limit];
    }
    page := Page(nodes, hasMore, if hasMore && nodes != [] then Some(nodes[|nodes| - 1]) else None);
  }

  // ---- the answer ----

  ghost predicate GroupMatches(idx: TermIndex, group: seq<Term>, x: Bytes) {
    group != [] && forall t :: t in group ==> x in Posting(idx, t)
  }

  ghost predicate Matches(idx: TermIndex, groups: seq<seq<Term>>, x: Bytes) {
    exists g :: 0 <= g < |groups| && GroupMatches(idx, groups[g], x)
  }

  /** The sorted ids satisfying the OR of ANDs. */
  ghost predicate IsAnswer(idx: TermIndex, groups: seq<seq<Term>>, answer: seq<Bytes>) {
    Ascending(answer) && forall x :: x in answer <==> Matches(idx, groups, x)
  }

  lemma AfterMember(ids: seq<Bytes>, after: Option<Bytes>, x: Bytes)
    ensures x in AfterId(ids, after) <==> x in ids && IsAfter(after)(x)
  {
    FilterMember(ids, IsAfter(after), x);
  }

  lemma {:induction false} UnionMember(groups: seq<seq<Term>>, fetch: Term -> set<Bytes>, x: Bytes)
    ensures x in UnionOf(groups, fetch) <==> exists g :: 0 <= g < |groups| && x in Shared(groups[g], fetch)
    decreases |groups|
  {
    if groups != [] {
      var n := |groups| - 1;
      UnionMember(groups[..n], fetch, x);
      assert forall g :: 0 <= g < n ==> groups[..n][g] == groups[g];
    }
  }

  /** Only matching ids after the cursor are ever fetched. */
  lemma FetchedMatches(idx: TermIndex, groups: seq<seq<Term>>, r: Read, x: Bytes)
    requires x in UnionOf(groups, Fetcher(idx, r))
    ensures Matches(idx, groups, x) && IsAfter(r.after)(x)
  {
    UnionMember(groups, Fetcher(idx, r), x);
    var g :| 0 <= g < |groups| && x in Shared(groups[g], Fetcher(idx, r));
    forall t | t in groups[g]
      ensures x in Posting(idx, t) && IsAfter(r.after)(x)
    {
      assert x in Fetcher(idx, r)(t);
      AfterMember(Posting(idx, t), r.after, x);
    }
    assert groups[g][0] in groups[g];
    assert GroupMatches(idx, groups[g], x);
  }

  // ---- with document counts ----

  /** Counts are present, cover the postings, and fit under the cap. */
  ghost predicate Counted(idx: TermIndex, groups: seq<seq<Term>>, cap: nat) {
    forall g, t :: 0 <= g < |groups| && t in groups[g] ==> CountCovers(idx, t, cap)
  }

  predicate CountCovers(idx: TermIndex, t: Term, cap: nat) {
    t in idx.counts && |Posting(idx, t)| <= idx.counts[t] <= cap && idx.counts[t] < U64_MAX / 8
  }

  lemma WholePosting(idx: TermIndex, t: Term, r: Read)
    requires CountCovers(idx, t, r.cap)
    ensures Fetch(idx, t, r) == AfterId(Posting(idx, t), r.after)
  {
    FilterLength(Posting(idx, t), IsAfter(r.after));
  }

  lemma CountedFetchesAll(idx: TermIndex, groups: seq<seq<Term>>, r: Read, x: Bytes)
    requires Counted(idx, groups, r.cap) && Matches(idx, groups, x) && IsAfter(r.after)(x)
    ensures x in UnionOf(groups, Fetcher(idx, r))
  {
    var g :| 0 <= g < |groups| && GroupMatches(idx, groups[g], x);
    forall t | t in groups[g]
      ensures x in Fetcher(idx, r)(t)
    {
      WholePosting(idx, t, r);
      AfterMember(Posting(idx, t), r.after, x);
    }
    assert groups[g][0] in groups[g];
    assert x in Shared(groups[g], Fetcher(idx, r));
    UnionMember(groups, Fetcher(idx, r), x);
  }

  // ---- single terms, counts or not ----

  lemma EnoughFetched(df: nat, target: nat, cap: nat)
    requires target <= cap && target <= U64_MAX
    ensures target <= FetchLimit(df, target, cap) <= Max(cap, 1)
  {
  }

  lemma AfterAscending(ids: seq<Bytes>, after: Option<Bytes>)
    requires Ascending(ids)
    ensures Ascending(AfterId(ids, after))
  {
    FilterSorted(ids, IsAfter(after));
  }

  lemma {:induction false} FilterSorted(ids: seq<Bytes>, p: Bytes -> bool)
    requires Ascending(ids)
    ensures Ascending(Filter(ids, p))
    decreases |ids|
  {
    if ids != [] {
      var rest := ids[1..];
      assert forall i :: 0 <= i < |rest| ==> rest[i] == ids[i + 1];
      FilterSorted(rest, p);
      forall x | x in Filter(rest, p)
        ensures Less(ids[0], x)
      {
        FilterMember(rest, p, x);
        var j :| 0 <= j < |rest| && rest[j] == x;
      }
    }
  }

  /** In an ascending subsequence an element comes no later than in the whole. */
  lemma NoLater(part: seq<Bytes>, whole: seq<Bytes>, j: nat, i: nat)
    requires Ascending(part) && Ascending(whole) && (forall x :: x in part ==> x in whole)
    requires j < |part| && i < |whole| && part[j] == whole[i]
    ensures j <= i
  {
    AscendingNoDup(part);
    var early := part[..j];
    forall x | x in early
      ensures x in whole[..i]
    {
      var k :| 0 <= k < j && early[k] == x;
      assert Less(part[k], part[j]);
      assert part[k] in part;
      var m :| 0 <= m < |whole| && whole[m] == x;
      LessTrichotomy(whole[m], whole[i]);
    }
    NoDupCardinality(early);
    SmallSet(SetOf(early), whole[..i]);
  }

  lemma {:induction false} SmallSet(s: set<Bytes>, list: seq<Bytes>)
    requires forall x :: x in s ==> x in list
    ensures |s| <= |list|
    decreases |list|
  {
    if list == [] {
      assert s == {};
    } else {
      var last := list[|list| - 1];
      assert list == list[..|list| - 1] + [last];
      SmallSet(s - {last}, list[..|list| - 1]);
    }
  }

  ghost predicate SingleTerms(groups: seq<seq<Term>>) {
    forall g :: 0 <= g < |groups| ==> |groups[g]| == 1
  }

  /** Every one of the next `target` answers is among the first `target` ids of one of its postings. */
  lemma SinglesFetchNext(idx: TermIndex, groups: seq<seq<Term>>, answer: seq<Bytes>, r: Read, i: nat)
    requires Sorted(idx) && IsAnswer(idx, groups, answer) && SingleTerms(groups)
    requires r.target <= r.cap && r.target <= U64_MAX
    requires i < |AfterId(answer, r.after)| && i < r.target
    ensures AfterId(answer, r.after)[i] in UnionOf(groups, Fetcher(idx, r))
  {
    var next := AfterId(answer, r.after);
    var x := next[i];
    AfterMember(answer, r.after, x);
    var g :| 0 <= g < |groups| && GroupMatches(idx, groups[g], x);
    var t := groups[g][0];
    assert t in groups[g];
    PostingFetches(idx, groups, answer, r, i, g);
    assert Shared(groups[g], Fetcher(idx, r)) == Fetcher(idx, r)(t) by {
      assert groups[g] == [t];
    }
    UnionMember(groups, Fetcher(idx, r), x);
  }

  lemma PostingFetches(idx: TermIndex, groups: seq<seq<Term>>, answer: seq<Bytes>, r: Read, i: nat, g: nat)
    requires Sorted(idx) && IsAnswer(idx, groups, answer) && SingleTerms(groups)
    requires r.target <= r.cap && r.target <= U64_MAX
    requires i < |AfterId(answer, r.after)| && i < r.target && g < |groups|
    requires GroupMatches(idx, groups[g], AfterId(answer, r.after)[i])
    ensures AfterId(answer, r.after)[i] in Fetch(idx, groups[g][0], r)
  {
    var t, next := groups[g][0], AfterId(answer, r.after);
    var list := AfterId(Posting(idx, t), r.after);
    assert t in groups[g];
    AfterMember(answer, r.after, next[i]);
    AfterMember(Posting(idx, t), r.after, next[i]);
    AfterAscending(answer, r.after);
    AfterAscending(Posting(idx, t), r.after);
    forall x | x in list
      ensures x in next
    {
      AfterMember(Posting(idx, t), r.after, x);
      assert groups[g] == [t];
      assert GroupMatches(idx, groups[g], x);
      AfterMember(answer, r.after, x);
    }
    var j :| 0 <= j < |list| && list[j] == next[i];
    NoLater(list, next, j, i);
    EnoughFetched(Df(idx, t), r.target, r.cap);
    assert Fetch(idx, t, r)[j] == list[j];
  }

  // ---- from fetched sets to pages ----

  /** `found` holds nothing but answers, and all of the next `n`. */
  ghost predicate Covers(found: set<Bytes>, next: seq<Bytes>, n: nat) {
    && (forall x :: x in found ==> x in next)
    && (forall i :: 0 <= i < n && i < |next| ==> next[i] in found)
  }

  /** Sorting a covering set gives the next `n` answers first. */
  lemma CoversSorted(ids: seq<Bytes>, next: seq<Bytes>, n: nat)
    requires Ascending(ids) && Ascending(next) && Covers(SetOf(ids), next, n)
    ensures Take(ids, n) == Take(next, n)
  {
    var m := Min(n, |next|);
    var head, tail := next[..m], Filter(ids, NotAmong(next[..m]));
    FilterSorted(ids, NotAmong(head));
    forall x | x in tail
      ensures x in ids && x in next && x !in head
    {
      FilterMember(ids, NotAmong(head), x);
      assert x in SetOf(ids);
    }
    forall x
      ensures x in ids <==> x in head + tail
    {
      FilterMember(ids, NotAmong(head), x);
      if x in head {
        var i :| 0 <= i < m && next[i] == x;
        assert next[i] in SetOf(ids);
      }
    }
    HeadBelowTail(next, m, tail);
    AscendingUnique(ids, head + tail);
    if m == |next| {
      assert next[..m] == next;
      HasMember(tail);
      assert tail == [];
    }
  }

  function NotAmong(head: seq<Bytes>): Bytes -> bool {
    (x: Bytes) => x !in head
  }

  lemma HeadBelowTail(next: seq<Bytes>, m: nat, tail: seq<Bytes>)
    requires Ascending(next) && Ascending(tail) && m <= |next|
    requires forall x :: x in tail ==> x in next && x !in next[..m]
    ensures Ascending(next[..m] + tail)
  {
    forall i, j | 0 <= i < m && 0 <= j < |tail|
      ensures Less(next[i], tail[j])
    {
      assert tail[j] in tail;
      assert next == next[..m] + next[m..];
      var k :| 0 <= k < |next[m..]| && next[m..][k] == tail[j];
      assert next[m + k] == tail[j];
    }
  }

  /** The page promised by the answer alone. */
  function AnswerPage(answer: seq<Bytes>, limit: nat, cursor: Option<Bytes>): Page {
    var next := AfterId(answer, cursor);
    var kept := Take(next, limit);
    Page(kept, |next| > limit, if |next| > limit && limit > 0 then Some(next[limit - 1]) else None)
  }

  lemma AfterAll(ids: seq<Bytes>, answer: seq<Bytes>, cursor: Option<Bytes>)
    requires forall x :: x in SetOf(ids) ==> x in AfterId(answer, cursor)
    ensures AfterId(ids, cursor) == ids
  {
    forall i | 0 <= i < |ids|
      ensures IsAfter(cursor)(ids[i])
    {
      assert ids[i] in SetOf(ids);
      AfterMember(answer, cursor, ids[i]);
    }
    FilterAll(ids, IsAfter(cursor));
  }

  lemma AllResolve(answer: seq<Bytes>, resolves: Bytes -> bool, cursor: Option<Bytes>, n: nat)
    requires forall x :: x in answer ==> resolves(x)
    ensures Filter(Take(AfterId(answer, cursor), n), resolves) == Take(AfterId(answer, cursor), n)
  {
    var window := Take(AfterId(answer, cursor), n);
    forall i | 0 <= i < |window|
      ensures resolves(window[i])
    {
      assert window[i] in AfterId(answer, cursor);
      AfterMember(answer, cursor, window[i]);
    }
    FilterAll(window, resolves);
  }

  lemma LookAhead(next: seq<Bytes>, limit: nat, page: Page)
    requires page == PageOf(Take(next, limit + 1), limit)
    ensures page.nodes == Take(next, limit) && page.hasMore == (|next| > limit)
    ensures page.cursor == if |next| > limit && limit > 0 then Some(next[limit - 1]) else None
  {
  }

  /** If the next `limit + 1` answers were fetched, the page is the answer's page. */
  lemma PageExact(ids: seq<Bytes>, answer: seq<Bytes>, resolves: Bytes -> bool, limit: nat, cursor: Option<Bytes>)
    requires Ascending(ids) && Ascending(answer) && (forall x :: x in answer ==> resolves(x))
    requires Covers(SetOf(ids), AfterId(answer, cursor), limit + 1)
    ensures PageFrom(ids, resolves, limit, cursor) == AnswerPage(answer, limit, cursor)
  {
    var next := AfterId(answer, cursor);
    AfterAscending(answer, cursor);
    CoversSorted(ids, next, limit + 1);
    AfterAll(ids, answer, cursor);
    AllResolve(answer, resolves, cursor, limit + 1);
    LookAhead(next, limit, PageFrom(ids, resolves, limit, cursor));
  }

  // ---- the two cases ----

  /** With counts, every matching id after the cursor is fetched. */
  lemma CountedCovers(idx: TermIndex, groups: seq<seq<Term>>, answer: seq<Bytes>, r: Read, n: nat)
    requires IsAnswer(idx, groups, answer) && Counted(idx, groups, r.cap)
    ensures Covers(UnionOf(groups, Fetcher(idx, r)), AfterId(answer, r.after), n)
    ensures UnionOf(groups, Fetcher(idx, r)) == SetOf(AfterId(answer, r.after))
  {
    forall x
      ensures x in UnionOf(groups, Fetcher(idx, r)) <==> x in AfterId(answer, r.after)
    {
      AfterMember(answer, r.after, x);
      if x in UnionOf(groups, Fetcher(idx, r)) {
        FetchedMatches(idx, groups, r, x);
      }
      if x in AfterId(answer, r.after) {
        CountedFetchesAll(idx, groups, r, x);
      }
    }
  }

  /** For ORs of single terms the next answers are fetched with or without counts. */
  lemma SinglesCover(idx: TermIndex, groups: seq<seq<Term>>, answer: seq<Bytes>, r: Read)
    requires Sorted(idx) && IsAnswer(idx, groups, answer) && SingleTerms(groups)
    requires r.target <= r.cap && r.target <= U64_MAX
    ensures Covers(UnionOf(groups, Fetcher(idx, r)), AfterId(answer, r.after), r.target)
  {
    forall x | x in UnionOf(groups, Fetcher(idx, r))
      ensures x in AfterId(answer, r.after)
    {
      FetchedMatches(idx, groups, r, x);
      AfterMember(answer, r.after, x);
    }
    forall i | 0 <= i < r.target && i < |AfterId(answer, r.after)|
      ensures AfterId(answer, r.after)[i] in UnionOf(groups, Fetcher(idx, r))
    {
      SinglesFetchNext(idx, groups, answer, r, i);
    }
  }

  lemma TargetFits(limit: nat, maxLimit: nat)
    requires maxLimit <= 0xFFFF_FFFF
    ensures Min(limit, maxLimit) + 1 <= HardCap(maxLimit) && Min(limit, maxLimit) + 1 <= U64_MAX
  {
  }

  /** What either case needs: the counts, or single terms only. */
  ghost predicate Fetchable(idx: TermIndex, groups: seq<seq<Term>>, maxLimit: nat) {
    Counted(idx, groups, Max(20 * maxLimit, 5000)) || SingleTerms(groups)
  }

  lemma FetchableCovers(idx: TermIndex, groups: seq<seq<Term>>, answer: seq<Bytes>, limit: nat, maxLimit: nat,
                        cursor: Option<Bytes>)
    requires Sorted(idx) && IsAnswer(idx, groups, answer) && Fetchable(idx, groups, maxLimit) && maxLimit <= 0xFFFF_FFFF
    ensures var r := ReadOf(limit, maxLimit, cursor);
            Covers(UnionOf(groups, Fetcher(idx, r)), AfterId(answer, cursor), Min(limit, maxLimit) + 1)
  {
    var r := ReadOf(limit, maxLimit, cursor);
    TargetFits(limit, maxLimit);
    if SingleTerms(groups) {
      SinglesCover(idx, groups, answer, r);
    } else {
      CountedCovers(idx, groups, answer, r, r.target);
    }
  }

  lemma FoundPageExact(idx: TermIndex, groups: seq<seq<Term>>, answer: seq<Bytes>, resolves: Bytes -> bool,
                       limit: nat, maxLimit: nat, cursor: Option<Bytes>, ids: seq<Bytes>)
    requires Sorted(idx) && IsAnswer(idx, groups, answer) && Fetchable(idx, groups, maxLimit) && maxLimit <= 0xFFFF_FFFF
    requires forall x :: x in answer ==> resolves(x)
    requires Ascending(ids) && SetOf(ids) == UnionOf(groups, Fetcher(idx, ReadOf(limit, maxLimit, cursor)))
    ensures PageFrom(ids, resolves, Min(limit, maxLimit), cursor) == AnswerPage(answer, Min(limit, maxLimit), cursor)
  {
    FetchableCovers(idx, groups, answer, limit, maxLimit, cursor);
    PageExact(ids, answer, resolves, Min(limit, maxLimit), cursor);
  }

  /** With the union under the cap, each page is the first `limit` matching ids after the cursor. */
  lemma TermPageExact(idx: TermIndex, groups: seq<seq<Term>>, answer: seq<Bytes>, resolves: Bytes -> bool,
                      limit: nat, maxLimit: nat, cursor: Option<Bytes>, page: Page)
    requires Sorted(idx) && IsAnswer(idx, groups, answer) && Fetchable(idx, groups, maxLimit) && maxLimit <= 0xFFFF_FFFF
    requires forall x :: x in answer ==> resolves(x)
    requires |UnionOf(groups, Fetcher(idx, ReadOf(limit, maxLimit, cursor)))| <= Max(20 * maxLimit, 5000)
    requires Answers(idx, groups, resolves, limit, maxLimit, cursor, page)
    ensures page == AnswerPage(answer, Min(limit, maxLimit), cursor)
  {
    var ids :| Found(idx, groups, ReadOf(limit, maxLimit, cursor), ids)
               && page == PageFrom(ids, resolves, Min(limit, maxLimit), cursor);
    FoundPageExact(idx, groups, answer, resolves, limit, maxLimit, cursor, ids);
  }

  // ---- following the cursors ----

  lemma {:induction false} AfterSuffix(answer: seq<Bytes>, n: nat)
    requires Ascending(answer) && n < |answer|
    ensures AfterId(answer, Some(answer[n])) == answer[n + 1..]
  {
    var p := IsAfter(Some(answer[n]));
    var head, tail := answer[..n + 1], answer[n + 1..];
    assert answer == head + tail;
    FilterAppend(head, tail, p);
    forall i | 0 <= i < |head|
      ensures !p(head[i])
    {
      LessTrichotomy(head[i], answer[n]);
    }
    FilterNone(head, p);
    FilterAll(tail, p);
  }

  // ---- the pages the executor serves ----

  /** The union fits under the cap, wherever a page starts. */
  ghost predicate UnderCap(idx: TermIndex, groups: seq<seq<Term>>, limit: nat, maxLimit: nat) {
    forall cursor: Option<Bytes> ::
      |UnionOf(groups, Fetcher(idx, ReadOf(limit, maxLimit, cursor)))| <= Max(20 * maxLimit, 5000)
  }

  type Server = (Option<Bytes>, Page) -> bool

  /** What a call of the executor may answer to a cursor. */
  ghost function Executor(idx: TermIndex, groups: seq<seq<Term>>, resolves: Bytes -> bool, limit: nat, maxLimit: nat)
    : Server
  {
    (cursor: Option<Bytes>, page: Page) => Answers(idx, groups, resolves, limit, maxLimit, cursor, page)
  }

  /** Pages asked for one after the other, each with the cursor of the one before. */
  predicate Served(serves: Server, cursor: Option<Bytes>, pages: seq<Page>)
    decreases |pages|
  {
    pages != [] && serves(cursor, pages[0])
    && (|pages| > 1 ==> pages[0].cursor.Some? && Served(serves, pages[0].cursor, pages[1..]))
  }

  function Collected(pages: seq<Page>): seq<Bytes> {
    if pages == [] then [] else pages[0].nodes + Collected(pages[1..])
  }

  ghost predicate ServesAnswer(serves: Server, answer: seq<Bytes>, limit: nat) {
    forall cursor: Option<Bytes>, page: Page :: serves(cursor, page) ==> page == AnswerPage(answer, limit, cursor)
  }

  lemma PageAt(answer: seq<Bytes>, limit: nat, n: nat)
    requires Ascending(answer) && n <= |answer| && limit > 0
    ensures IsPiece(answer, limit, n, AnswerPage(answer, limit, if n == 0 then None else Some(answer[n - 1])))
  {
    var cursor := if n == 0 then None else Some(answer[n - 1]);
    if n == 0 {
      FilterAll(answer, IsAfter(cursor));
      assert answer[0..] == answer;
    } else {
      AfterSuffix(answer, n - 1);
    }
    assert AfterId(answer, cursor) == answer[n..];
  }

  /** The piece of the answer at position `n`, with the cursor behind it. */
  predicate IsPiece(answer: seq<Bytes>, limit: nat, n: nat, page: Page)
    requires n <= |answer| && limit > 0
  {
    if n + limit >= |answer| then page.nodes == answer[n..] && page.cursor == None
    else page.nodes == answer[n..n + limit] && page.cursor == Some(answer[n + limit - 1])
  }

  predicate Pieces(answer: seq<Bytes>, limit: nat, n: nat, pages: seq<Page>)
    requires n <= |answer| && limit > 0
    decreases |pages|
  {
    pages != [] && IsPiece(answer, limit, n, pages[0])
    && (|pages| > 1 ==> n + limit < |answer| && Pieces(answer, limit, n + limit, pages[1..]))
  }

  /** Pages served from position `n` on are consecutive pieces of the answer. */
  lemma {:induction false} ServedPieces(serves: Server, answer: seq<Bytes>, limit: nat, n: nat, pages: seq<Page>)
    requires Ascending(answer) && n <= |answer| && limit > 0 && ServesAnswer(serves, answer, limit)
    requires Served(serves, if n == 0 then None else Some(answer[n - 1]), pages)
    ensures Pieces(answer, limit, n, pages)
    decreases |pages|
  {
    PageAt(answer, limit, n);
    if |pages| > 1 {
      ServedPieces(serves, answer, limit, n + limit, pages[1..]);
    }
  }

  /** The position behind the last of the pages. */
  function PiecesEnd(answer: seq<Bytes>, limit: nat, n: nat, pages: nat): nat
    decreases pages
  {
    if pages <= 1 then Min(n + limit, |answer|) else PiecesEnd(answer, limit, n + limit, pages - 1)
  }

  lemma {:induction false} PiecesCount(answer: seq<Bytes>, limit: nat, n: nat, pages: seq<Page>)
    requires n <= |answer| && limit > 0 && Pieces(answer, limit, n, pages)
    ensures |pages| <= |answer| - n + 1
    ensures n <= PiecesEnd(answer, limit, n, |pages|) <= |answer|
    ensures pages[|pages| - 1].cursor.None? <==> PiecesEnd(answer, limit, n, |pages|) == |answer|
    decreases |pages|
  {
    if |pages| > 1 {
      PiecesCount(answer, limit, n + limit, pages[1..]);
      assert pages[1..][|pages| - 2] == pages[|pages| - 1];
    }
  }

  lemma Adjoining<T>(s: seq<T>, a: nat, b: nat, c: nat)
    requires a <= b <= c <= |s|
    ensures s[a..b] + s[b..c] == s[a..c]
  {
  }

  lemma {:induction false} PiecesCollected(answer: seq<Bytes>, limit: nat, n: nat, pages: seq<Page>)
    requires n <= |answer| && limit > 0 && Pieces(answer, limit, n, pages)
    ensures n <= PiecesEnd(answer, limit, n, |pages|) <= |answer|
    ensures Collected(pages) == answer[n..PiecesEnd(answer, limit, n, |pages|)]
    decreases |pages|
  {
    PiecesCount(answer, limit, n, pages);
    if |pages| > 1 {
      PiecesCollected(answer, limit, n + limit, pages[1..]);
      Adjoining(answer, n, n + limit, PiecesEnd(answer, limit, n, |pages|));
    } else {
      assert Collected(pages) == pages[0].nodes + [];
    }
  }

  /**
   * Whatever pages the executor serves to a client that follows its cursors: they are consecutive
   * pieces of the sorted answer, at most one more than it has ids, and end exactly when it is complete.
   */
  lemma PagesPartition(idx: TermIndex, groups: seq<seq<Term>>, answer: seq<Bytes>, resolves: Bytes -> bool,
                       limit: nat, maxLimit: nat, pages: seq<Page>)
    requires Sorted(idx) && IsAnswer(idx, groups, answer) && Fetchable(idx, groups, maxLimit) && maxLimit <= 0xFFFF_FFFF
    requires (forall x :: x in answer ==> resolves(x)) && UnderCap(idx, groups, limit, maxLimit) && Min(limit, maxLimit) > 0
    requires Served(Executor(idx, groups, resolves, limit, maxLimit), None, pages)
    ensures Collected(pages) <= answer && |pages| <= |answer| + 1
    ensures pages[|pages| - 1].cursor.None? <==> Collected(pages) == answer
  {
    var serves := Executor(idx, groups, resolves, limit, maxLimit);
    forall cursor: Option<Bytes>, page: Page | serves(cursor, page)
      ensures page == AnswerPage(answer, Min(limit, maxLimit), cursor)
    {
      TermPageExact(idx, groups, answer, resolves, limit, maxLimit, cursor, page);
    }
    ServedPieces(serves, answer, Min(limit, maxLimit), 0, pages);
    PiecesCount(answer, Min(limit, maxLimit), 0, pages);
    PiecesCollected(answer, Min(limit, maxLimit), 0, pages);
    assert answer[0..|answer|] == answer;
  }

  // ---- the pages are there ----

  function Among(found: set<Bytes>): Bytes -> bool {
    (x: Bytes) => x in found
  }

  /** Whatever the cursor, a call can answer. */
  lemma SomePage(idx: TermIndex, groups: seq<seq<Term>>, answer: seq<Bytes>, resolves: Bytes -> bool, limit: nat,
                 maxLimit: nat, cursor: Option<Bytes>)
    returns (page: Page)
    requires IsAnswer(idx, groups, answer)
    ensures Answers(idx, groups, resolves, limit, maxLimit, cursor, page)
  {
    var r := ReadOf(limit, maxLimit, cursor);
    var whole := UnionOf(groups, Fetcher(idx, r));
    var ids := Filter(answer, Among(whole));
    FilterSorted(answer, Among(whole));
    forall x
      ensures x in ids <==> x in whole
    {
      FilterMember(answer, Among(whole), x);
      if x in whole {
        FetchedMatches(idx, groups, r, x);
      }
    }
    page := PageFrom(ids, resolves, Min(limit, maxLimit), cursor);
    assert Found(idx, groups, r, ids);
  }

  ghost predicate CanServe(serves: Server, cursor: Option<Bytes>) {
    exists page: Page :: serves(cursor, page)
  }

  ghost predicate AlwaysServes(serves: Server) {
    forall cursor: Option<Bytes> :: CanServe(serves, cursor)
  }

  lemma {:induction false} ServedFrom(serves: Server, answer: seq<Bytes>, limit: nat, n: nat) returns (pages: seq<Page>)
    requires Ascending(answer) && n <= |answer| && limit > 0 && ServesAnswer(serves, answer, limit) && AlwaysServes(serves)
    ensures Served(serves, if n == 0 then None else Some(answer[n - 1]), pages)
    ensures pages[|pages| - 1].cursor.None?
    decreases |answer| - n
  {
    var cursor := if n == 0 then None else Some(answer[n - 1]);
    assert CanServe(serves, cursor);
    var page: Page :| serves(cursor, page);
    PageAt(answer, limit, n);
    if n + limit >= |answer| {
      pages := [page];
    } else {
      var more := ServedFrom(serves, answer, limit, n + limit);
      pages := [page] + more;
      assert pages[1..] == more;
    }
  }

  /** Following the cursors from the start does reach a last page, and so the whole answer. */
  lemma PagesExist(idx: TermIndex, groups: seq<seq<Term>>, answer: seq<Bytes>, resolves: Bytes -> bool, limit: nat,
                   maxLimit: nat)
    returns (pages: seq<Page>)
    requires Sorted(idx) && IsAnswer(idx, groups, answer) && Fetchable(idx, groups, maxLimit) && maxLimit <= 0xFFFF_FFFF
    requires (forall x :: x in answer ==> resolves(x)) && UnderCap(idx, groups, limit, maxLimit) && Min(limit, maxLimit) > 0
    ensures Served(Executor(idx, groups, resolves, limit, maxLimit), None, pages) && Collected(pages) == answer
  {
    var serves := Executor(idx, groups, resolves, limit, maxLimit);
    forall cursor: Option<Bytes>
      ensures CanServe(serves, cursor)
    {
      var page := SomePage(idx, groups, answer, resolves, limit, maxLimit, cursor);
      assert serves(cursor, page);
    }
    forall cursor: Option<Bytes>, page: Page | serves(cursor, page)
      ensures page == AnswerPage(answer, Min(limit, maxLimit), cursor)
    {
      TermPageExact(idx, groups, answer, resolves, limit, maxLimit, cursor, page);
    }
    pages := ServedFrom(serves, answer, Min(limit, maxLimit), 0);
    PagesPartition(idx, groups, answer, resolves, limit, maxLimit, pages);
  }

  lemma {:induction false} FilterWhole(ids: seq<Bytes>, p: Bytes -> bool)
    ensures |Filter(ids, p)| <= |ids|
    ensures |Filter(ids, p)| == |ids| <==> forall i :: 0 <= i < |ids| ==> p(ids[i])
    decreases |ids|
  {
    if ids != [] {
      FilterWhole(ids[1..], p);
      assert forall i :: 0 <= i < |ids[1..]| ==> ids[1..][i] == ids[i + 1];
    }
  }

  /** More is reported, and a cursor given, exactly when the page and its look-ahead all resolve. */
  lemma MoreIffAllResolve(ids: seq<Bytes>, resolves: Bytes -> bool, limit: nat, cursor: Option<Bytes>)
    requires |AfterId(ids, cursor)| > limit
    ensures PageFrom(ids, resolves, limit, cursor).hasMore <==>
            forall i :: 0 <= i <= limit ==> resolves(AfterId(ids, cursor)[i])
    ensures !PageFrom(ids, resolves, limit, cursor).hasMore ==> PageFrom(ids, resolves, limit, cursor).cursor == None
  {
    var window := Take(AfterId(ids, cursor), limit + 1);
    FilterWhole(window, resolves);
    assert forall i :: 0 <= i <= limit ==> window[i] == AfterId(ids, cursor)[i];
  }
}
